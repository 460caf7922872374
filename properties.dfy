/** What broadcasting guarantees: the algebra of broadcast shapes, the
    meaning of stretched indexing and of rank padding, and the value of every
    cell of an element-wise sum. */
module BroadcastingProperties {
  import opened Arrays
  import opened Broadcasting

  // ---------------------------------------------------------------------
  // Rank alignment
  // ---------------------------------------------------------------------

  /** For arrays of different rank the argument order does not matter: the
      padded lower-rank array always comes first. */
  lemma MatchDimensionsOrderFree(arr: NdArray, arr2: NdArray)
    requires Rank(arr) != Rank(arr2)
    ensures MatchDimensions(arr, arr2) == MatchDimensions(arr2, arr)
    ensures Rank(MatchDimensions(arr, arr2).0) == Rank(MatchDimensions(arr, arr2).1)
  {
  }

  /** Padding keeps every element where it was: reading the padded array at
      a coordinate reads the original at the coordinate without the `k`
      leading positions. */
  lemma PadGetItem(a: NdArray, k: nat, c: Coord)
    requires a.Valid() && InStretchedBounds(Pad(a, k).shape, c)
    ensures InStretchedBounds(a.shape, c[k..])
    ensures GetItem(Pad(a, k), c) == GetItem(a, c[k..])
  {
    var padded := Pad(a, k).shape;
    var d := StretchIndex(padded, c);
    assert padded == Ones(k) + a.shape;
    assert InBounds(padded, d);
    assert forall i :: 0 <= i < |a.shape| ==> padded[k + i] == a.shape[i];
    assert d[k..] == StretchIndex(a.shape, c[k..]);
    OffsetOnes(k, a.shape, d);
  }

  // ---------------------------------------------------------------------
  // Broadcast shapes
  // ---------------------------------------------------------------------

  /** The result has one axis per pair of the innermost-aligned zip. */
  lemma BroadcastShapeRank(s: Shape, s2: Shape)
    requires BroadcastShape(s, s2).Ok?
    ensures |BroadcastShape(s, s2).value| == MinRank(s, s2)
    ensures |s| == |s2| ==> |BroadcastShape(s, s2).value| == |s|
  {
  }

  /** Read from the innermost axis outward, as the pairs are scanned:
      broadcasting fails exactly when some pair neither is equal nor has a
      1, and the failure reports both shapes whole. */
  lemma BroadcastShapeFailsFromRight(s: Shape, s2: Shape)
    ensures BroadcastShape(s, s2).Err? <==>
      exists k :: 0 <= k < MinRank(s, s2) && !DimsMatch(FromRight(s, k), FromRight(s2, k))
    ensures BroadcastShape(s, s2).Err? ==> BroadcastShape(s, s2).error == BroadcastError(s, s2)
  {
    var m := MinRank(s, s2);
    var t, t2 := Suffix(s, m), Suffix(s2, m);
    if AxesMatch(t, t2) {
      forall k | 0 <= k < m
        ensures DimsMatch(FromRight(s, k), FromRight(s2, k))
      {
        SuffixFromRight(s, m, k);
        SuffixFromRight(s2, m, k);
      }
    } else {
      var j :| 0 <= j < m && !DimsMatch(t[j], t2[j]);
      SuffixFromRight(s, m, m - 1 - j);
      SuffixFromRight(s2, m, m - 1 - j);
    }
  }

  /** The axis `k` places from the innermost one of the combined suffixes is
      the broadcast size of the axes `k` places from the innermost ones. */
  lemma CombineAxesFromRight(s: Shape, s2: Shape, m: nat, k: nat)
    requires k < m <= |s| && m <= |s2| && AxesMatch(Suffix(s, m), Suffix(s2, m))
    ensures DimsMatch(FromRight(s, k), FromRight(s2, k))
    ensures FromRight(CombineAxes(Suffix(s, m), Suffix(s2, m)), k) == AxisSize(FromRight(s, k), FromRight(s2, k))
  {
    SuffixFromRight(s, m, k);
    SuffixFromRight(s2, m, k);
  }

  /** Read from the innermost axis outward, each axis of a successful result
      is the broadcast size of its pair. */
  lemma BroadcastShapeAxesFromRight(s: Shape, s2: Shape)
    requires BroadcastShape(s, s2).Ok?
    ensures forall k :: 0 <= k < MinRank(s, s2) ==>
      DimsMatch(FromRight(s, k), FromRight(s2, k)) &&
      FromRight(BroadcastShape(s, s2).value, k) == AxisSize(FromRight(s, k), FromRight(s2, k))
  {
    var m := MinRank(s, s2);
    var r := BroadcastShape(s, s2).value;
    assert r == CombineAxes(Suffix(s, m), Suffix(s2, m));
    forall k | 0 <= k < m
      ensures DimsMatch(FromRight(s, k), FromRight(s2, k))
      ensures FromRight(r, k) == AxisSize(FromRight(s, k), FromRight(s2, k))
    {
      CombineAxesFromRight(s, s2, m, k);
    }
  }

  /** For equal ranks, the per-axis rule: the pair (d, d2) must be equal or
      contain a 1; the result axis is d when d2 is 1 or both are equal, and
      d2 when d is 1. */
  lemma BroadcastShapeEqualRank(s: Shape, s2: Shape)
    requires |s| == |s2|
    ensures BroadcastShape(s, s2).Ok? <==> forall i :: 0 <= i < |s| ==> DimsMatch(s[i], s2[i])
    ensures BroadcastShape(s, s2).Err? ==> BroadcastShape(s, s2).error == BroadcastError(s, s2)
    ensures BroadcastShape(s, s2).Ok? ==>
      var r := BroadcastShape(s, s2).value;
      |r| == |s| &&
      forall i :: 0 <= i < |s| ==>
        (s[i] == s2[i] || s2[i] == 1 ==> r[i] == s[i]) && (s[i] == 1 ==> r[i] == s2[i])
  {
    assert Suffix(s, |s|) == s && Suffix(s2, |s2|) == s2;
  }

  /** A shape broadcast with itself is itself. */
  lemma BroadcastShapeIdentity(s: Shape)
    ensures BroadcastShape(s, s) == Ok(s)
  {
    assert Suffix(s, |s|) == s;
    assert CombineAxes(s, s) == s;
  }

  /** An all-1 shape of the same rank is absorbed, on either side. */
  lemma BroadcastShapeOnes(s: Shape)
    ensures BroadcastShape(s, Ones(|s|)) == Ok(s)
    ensures BroadcastShape(Ones(|s|), s) == Ok(s)
  {
    var o := Ones(|s|);
    assert Suffix(s, |s|) == s && Suffix(o, |o|) == o;
    assert CombineAxes(s, o) == s;
    assert CombineAxes(o, s) == s;
  }

  /** Swapping the operands fails exactly when the original order fails and
      otherwise gives the same shape. */
  lemma BroadcastShapeSymmetric(s: Shape, s2: Shape)
    ensures BroadcastShape(s, s2).Ok? <==> BroadcastShape(s2, s).Ok?
    ensures BroadcastShape(s, s2).Ok? ==> BroadcastShape(s, s2).value == BroadcastShape(s2, s).value
  {
    var m := MinRank(s, s2);
    assert MinRank(s2, s) == m;
    var t, t2 := Suffix(s, m), Suffix(s2, m);
    assert AxesMatch(t, t2) <==> AxesMatch(t2, t);
    if AxesMatch(t, t2) {
      assert CombineAxes(t, t2) == CombineAxes(t2, t);
    }
  }

  /** Without rank alignment only the trailing axes of the longer shape
      take part: the result is that of the longer shape cut to the rank of
      the shorter one, error aside. */
  lemma BroadcastShapeTruncates(s: Shape, s2: Shape)
    requires |s2| <= |s|
    ensures BroadcastShape(s, s2).Ok? <==> BroadcastShape(Suffix(s, |s2|), s2).Ok?
    ensures BroadcastShape(s, s2).Ok? ==> BroadcastShape(s, s2).value == BroadcastShape(Suffix(s, |s2|), s2).value
  {
    var t := Suffix(s, |s2|);
    assert Suffix(t, |s2|) == t && Suffix(s2, |s2|) == s2;
  }

  /** (3,4) against (3,5): the innermost pair differs and has no 1. */
  lemma BroadcastShapeMismatch(s: Shape, s2: Shape)
    requires s == [3, 4] && s2 == [3, 5]
    ensures BroadcastShape(s, s2) == Err(BroadcastError(s, s2))
  {
    assert Suffix(s, 2) == s && Suffix(s2, 2) == s2;
    assert !DimsMatch(s[1], s2[1]);
  }

  /** (2,3) against (1,3) gives (2,3). */
  lemma BroadcastShapeStretchRow(s: Shape, s2: Shape)
    requires s == [2, 3] && s2 == [1, 3]
    ensures BroadcastShape(s, s2) == Ok(s)
  {
    assert Suffix(s, 2) == s && Suffix(s2, 2) == s2;
    assert CombineAxes(s, s2) == s;
  }

  /** Without rank alignment (2,3) against (2,) compares 3 with 2 and
      fails, while (2,3) against (3,) gives (3,), not (2,3). */
  lemma BroadcastShapeTruncatedExamples(s: Shape, s2: Shape, s3: Shape)
    requires s == [2, 3] && s2 == [2] && s3 == [3]
    ensures BroadcastShape(s, s2) == Err(BroadcastError(s, s2))
    ensures BroadcastShape(s, s3) == Ok(s3)
  {
    assert Suffix(s, 1) == s3 && Suffix(s2, 1) == s2 && Suffix(s3, 1) == s3;
    assert !DimsMatch(s3[0], s2[0]);
    assert CombineAxes(s3, s3) == s3;
  }

  // ---------------------------------------------------------------------
  // Stretched indexing
  // ---------------------------------------------------------------------

  /** A coordinate already inside the array's own bounds is not changed. */
  lemma StretchIndexInBounds(shape: Shape, c: Coord)
    requires InBounds(shape, c)
    ensures StretchIndex(shape, c) == c
  {
  }

  /** Stretching twice is stretching once. */
  lemma StretchIndexIdempotent(shape: Shape, c: Coord)
    ensures StretchIndex(shape, StretchIndex(shape, c)) == StretchIndex(shape, c)
  {
  }

  /** Inside the array's own bounds the stretched lookup is the plain one. */
  lemma GetItemInBounds(a: NdArray, c: Coord)
    requires a.Valid() && InBounds(a.shape, c)
    ensures InStretchedBounds(a.shape, c)
    ensures GetItem(a, c) == At(a, c)
  {
    StretchIndexInBounds(a.shape, c);
  }

  /** The stretched lookup reads the element at the one in-bounds coordinate
      that agrees with `indices` on every axis not of size 1; being in bounds,
      that coordinate is 0 on every axis of size 1. */
  lemma GetItemAt(arr: NdArray, indices: Coord, d: Coord)
    requires arr.Valid() && InStretchedBounds(arr.shape, indices) && InBounds(arr.shape, d)
    requires forall i :: 0 <= i < |d| && arr.shape[i] != 1 ==> d[i] == indices[i]
    ensures GetItem(arr, indices) == At(arr, d)
  {
    assert StretchIndex(arr.shape, indices) == d;
  }

  /** Along an axis of size 1 the lookup reads the same element at every
      position: the stretch. */
  lemma GetItemStretched(a: NdArray, c: Coord, i: nat, v: nat)
    requires a.Valid() && InStretchedBounds(a.shape, c)
    requires i < |a.shape| && a.shape[i] == 1
    ensures InStretchedBounds(a.shape, c[i := v])
    ensures GetItem(a, c[i := v]) == GetItem(a, c)
  {
    assert StretchIndex(a.shape, c[i := v]) == StretchIndex(a.shape, c);
  }

  // ---------------------------------------------------------------------
  // Element-wise sum
  // ---------------------------------------------------------------------

  /** The sum succeeds exactly when the aligned shapes broadcast; it then has
      the broadcast shape, and otherwise reports the broadcast error with no
      output. */
  lemma SumShape(arr: NdArray, arr2: NdArray)
    requires arr.Valid() && arr2.Valid()
    ensures
      var x := MatchDimensions(arr, arr2).0;
      var y := MatchDimensions(arr, arr2).1;
      var shape := BroadcastShape(x.shape, y.shape);
      (Sum(arr, arr2).Ok? <==> shape.Ok?) &&
      (shape.Err? ==> Sum(arr, arr2) == Err(BroadcastError(x.shape, y.shape))) &&
      (shape.Ok? ==> Sum(arr, arr2).value.shape == shape.value && Sum(arr, arr2).value.Valid())
  {
  }

  /** Equal-rank operands are compared as given, and a failure names their
      shapes in argument order. */
  lemma SumEqualRank(arr: NdArray, arr2: NdArray)
    requires arr.Valid() && arr2.Valid() && Rank(arr) == Rank(arr2)
    ensures Sum(arr, arr2).Ok? <==> BroadcastShape(arr.shape, arr2.shape).Ok?
    ensures Sum(arr, arr2).Ok? ==> Sum(arr, arr2).value.shape == BroadcastShape(arr.shape, arr2.shape).value
    ensures Sum(arr, arr2).Err? ==> Sum(arr, arr2).error == BroadcastError(arr.shape, arr2.shape)
  {
  }

  /** Every output coordinate holds the sum of the two stretched lookups. */
  lemma SumAtCoordinate(arr: NdArray, arr2: NdArray, c: Coord)
    requires arr.Valid() && arr2.Valid() && Sum(arr, arr2).Ok?
    requires InBounds(Sum(arr, arr2).value.shape, c)
    ensures
      var x := MatchDimensions(arr, arr2).0;
      var y := MatchDimensions(arr, arr2).1;
      InStretchedBounds(x.shape, c) && InStretchedBounds(y.shape, c) &&
      At(Sum(arr, arr2).value, c) == GetItem(x, c) + GetItem(y, c)
  {
    var x, y := MatchDimensions(arr, arr2).0, MatchDimensions(arr, arr2).1;
    var out := Sum(arr, arr2).value;
    BroadcastStretches(x.shape, y.shape, out.shape);
    StretchInBounds(x.shape, out.shape, c);
    StretchInBounds(y.shape, out.shape, c);
    UnravelOffset(out.shape, c);
  }

  /** The lower-rank array `a` padded to the rank of `b`, read next to `b`. */
  lemma PaddedPairGetItem(a: NdArray, b: NdArray, c: Coord)
    requires a.Valid() && b.Valid() && Rank(a) < Rank(b)
    requires InStretchedBounds(Pad(a, Rank(b) - Rank(a)).shape, c) && InStretchedBounds(b.shape, c)
    ensures Rank(a) <= |c| && InStretchedBounds(a.shape, c[|c| - Rank(a)..])
    ensures c[|c| - Rank(b)..] == c
    ensures GetItem(Pad(a, Rank(b) - Rank(a)), c) == GetItem(a, c[|c| - Rank(a)..])
  {
    PadGetItem(a, Rank(b) - Rank(a), c);
    assert c[|c| - Rank(b)..] == c;
  }

  /** Reading an aligned array reads the original one at the trailing
      positions, one per axis it has. */
  lemma MatchDimensionsGetItem(arr: NdArray, arr2: NdArray, c: Coord)
    requires arr.Valid() && arr2.Valid()
    requires InStretchedBounds(MatchDimensions(arr, arr2).0.shape, c)
    requires InStretchedBounds(MatchDimensions(arr, arr2).1.shape, c)
    ensures Rank(arr) <= |c| && Rank(arr2) <= |c|
    ensures InStretchedBounds(arr.shape, c[|c| - Rank(arr)..])
    ensures InStretchedBounds(arr2.shape, c[|c| - Rank(arr2)..])
    ensures GetItem(MatchDimensions(arr, arr2).0, c) + GetItem(MatchDimensions(arr, arr2).1, c) ==
      GetItem(arr, c[|c| - Rank(arr)..]) + GetItem(arr2, c[|c| - Rank(arr2)..])
    ensures Rank(arr) <= Rank(arr2) ==>
      GetItem(MatchDimensions(arr, arr2).0, c) == GetItem(arr, c[|c| - Rank(arr)..]) &&
      GetItem(MatchDimensions(arr, arr2).1, c) == GetItem(arr2, c[|c| - Rank(arr2)..])
    ensures Rank(arr2) < Rank(arr) ==>
      GetItem(MatchDimensions(arr, arr2).0, c) == GetItem(arr2, c[|c| - Rank(arr2)..]) &&
      GetItem(MatchDimensions(arr, arr2).1, c) == GetItem(arr, c[|c| - Rank(arr)..])
  {
    if Rank(arr) < Rank(arr2) {
      PaddedPairGetItem(arr, arr2, c);
    } else if Rank(arr2) < Rank(arr) {
      PaddedPairGetItem(arr2, arr, c);
    } else {
      assert c[|c| - Rank(arr)..] == c;
    }
  }

  /** The same in terms of the original operands: each is read at the
      trailing positions of the output coordinate, one per axis it has. */
  lemma SumAtInputs(arr: NdArray, arr2: NdArray, c: Coord)
    requires arr.Valid() && arr2.Valid() && Sum(arr, arr2).Ok?
    requires InBounds(Sum(arr, arr2).value.shape, c)
    ensures Rank(arr) <= |c| && Rank(arr2) <= |c|
    ensures InStretchedBounds(arr.shape, c[|c| - Rank(arr)..])
    ensures InStretchedBounds(arr2.shape, c[|c| - Rank(arr2)..])
    ensures At(Sum(arr, arr2).value, c) ==
      GetItem(arr, c[|c| - Rank(arr)..]) + GetItem(arr2, c[|c| - Rank(arr2)..])
  {
    SumAtCoordinate(arr, arr2, c);
    MatchDimensionsGetItem(arr, arr2, c);
  }

  /** Swapping the operands swaps the two lookups of every cell. */
  lemma CellsSwap(x: NdArray, y: NdArray, out: Shape)
    requires x.Valid() && y.Valid() && Stretches(x.shape, out) && Stretches(y.shape, out)
    ensures Cells(x, y, out) == Cells(y, x, out)
  {
    forall p | 0 <= p < Product(out)
      ensures Cells(x, y, out)[p] == Cells(y, x, out)[p]
    {
      var c := Unravel(out, p);
      assert Cells(x, y, out)[p] == SumAt(x, y, out, c);
      assert Cells(y, x, out)[p] == SumAt(y, x, out, c);
    }
  }

  /** Addition under broadcasting is commutative, failures included. */
  lemma SumCommutes(arr: NdArray, arr2: NdArray)
    requires arr.Valid() && arr2.Valid()
    ensures Sum(arr, arr2).Ok? <==> Sum(arr2, arr).Ok?
    ensures Sum(arr, arr2).Ok? ==> Sum(arr, arr2).value == Sum(arr2, arr).value
  {
    if Rank(arr) == Rank(arr2) {
      BroadcastShapeSymmetric(arr.shape, arr2.shape);
      var shape := BroadcastShape(arr.shape, arr2.shape);
      if shape.Ok? {
        BroadcastStretches(arr.shape, arr2.shape, shape.value);
        CellsSwap(arr, arr2, shape.value);
      }
    } else {
      MatchDimensionsOrderFree(arr, arr2);
    }
  }

  // ---------------------------------------------------------------------
  // The sample computation
  // ---------------------------------------------------------------------

  /** A column of 1..5, shape (5,1). */
  function Column(): NdArray
  {
    NdArray([5, 1], seq(5, k => k + 1))
  }

  /** A row of 1..6, shape (1,6). */
  function Row(): NdArray
  {
    NdArray([1, 6], seq(6, k => k + 1))
  }

  /** A vector of 1..6, shape (6,). */
  function Vector(): NdArray
  {
    NdArray([6], seq(6, k => k + 1))
  }

  /** A column of shape (n,1) plus a row of shape (1,m) is the n-by-m
      outer sum. */
  lemma OuterSum(a: NdArray, b: NdArray, i: nat, j: nat)
    requires a.Valid() && b.Valid() && |a.shape| == 2 && |b.shape| == 2
    requires a.shape[1] == 1 && b.shape[0] == 1 && i < a.shape[0] && j < b.shape[1]
    ensures Sum(a, b).Ok?
    ensures Sum(a, b).value.shape == [a.shape[0], b.shape[1]]
    ensures At(Sum(a, b).value, [i, j]) == At(a, [i, 0]) + At(b, [0, j])
  {
    var n, m := a.shape[0], b.shape[1];
    assert BroadcastShape(a.shape, b.shape) == Ok([n, m]) by {
      assert Suffix(a.shape, 2) == a.shape && Suffix(b.shape, 2) == b.shape;
      assert CombineAxes(a.shape, b.shape) == [n, m];
    }
    SumShape(a, b);
    SumAtCoordinate(a, b, [i, j]);
    assert StretchIndex(a.shape, [i, j]) == [i, 0];
    assert StretchIndex(b.shape, [i, j]) == [0, j];
  }

  /** A vector of shape (m,) added to an n-by-m array is aligned as a row of
      shape (1,m) and added to every row. */
  lemma RowBroadcast(a: NdArray, c: NdArray, i: nat, j: nat)
    requires a.Valid() && c.Valid() && |a.shape| == 2 && |c.shape| == 1
    requires c.shape[0] == a.shape[1] && i < a.shape[0] && j < a.shape[1]
    ensures Sum(a, c).Ok?
    ensures Sum(a, c).value.shape == a.shape
    ensures At(Sum(a, c).value, [i, j]) == At(a, [i, j]) + At(c, [j])
  {
    var padded := Pad(c, 1).shape;
    assert padded == [1, c.shape[0]];
    assert BroadcastShape(padded, a.shape) == Ok(a.shape) by {
      assert Suffix(padded, 2) == padded && Suffix(a.shape, 2) == a.shape;
      assert CombineAxes(padded, a.shape) == a.shape;
    }
    SumShape(a, c);
    SumAtInputs(a, c, [i, j]);
    assert [i, j][1..] == [j] && [i, j][0..] == [i, j];
    GetItemInBounds(c, [j]);
    GetItemInBounds(a, [i, j]);
  }

  /** The first step of the sample computation: the column 1..5 plus the
      row 1..6 is the 5-by-6 table of pairwise sums. */
  lemma SampleOuterSum(a: NdArray, b: NdArray, i: nat, j: nat)
    requires a == Column() && b == Row() && i < 5 && j < 6
    ensures Sum(a, b).Ok? && Sum(a, b).value.shape == [5, 6]
    ensures At(Sum(a, b).value, [i, j]) == (i + 1) + (j + 1)
  {
    assert At(a, [i, 0]) == i + 1 by {
      assert Offset(a.shape, [i, 0]) == i;
    }
    assert At(b, [0, j]) == j + 1 by {
      assert Offset(b.shape, [0, j]) == j;
    }
    OuterSum(a, b, i, j);
  }

  /** The sample computation: adding the column 1..5 and the row 1..6, then
      the vector 1..6, gives a 5-by-6 array whose cell (i, j) is
      (i + 1) + 2 * (j + 1). */
  lemma ChainedSumExample(a: NdArray, b: NdArray, c: NdArray, i: nat, j: nat)
    requires a == Column() && b == Row() && c == Vector()
    requires i < 5 && j < 6
    ensures Sum(a, b).Ok? && Sum(Sum(a, b).value, c).Ok?
    ensures Sum(Sum(a, b).value, c).value.shape == [5, 6]
    ensures At(Sum(Sum(a, b).value, c).value, [i, j]) == (i + 1) + 2 * (j + 1)
  {
    SampleOuterSum(a, b, i, j);
    SumShape(a, b);
    var ab := Sum(a, b).value;
    assert At(c, [j]) == j + 1 by {
      assert Offset(c.shape, [j]) == j;
    }
    RowBroadcast(ab, c, i, j);
  }
}

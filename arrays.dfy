/** Dense n-dimensional integer arrays stored as a shape plus flat row-major data,
    the coordinate arithmetic of row-major layout, and the lexicographic
    enumeration of the coordinates of a shape. */
module Arrays {

  /** One size per axis, outermost axis first. */
  type Shape = seq<nat>

  /** One position per axis, outermost axis first. */
  type Coord = seq<nat>

  /** An array: its shape and its elements in row-major order. */
  datatype NdArray = NdArray(shape: Shape, data: seq<int>)
  {
    /** The storage holds exactly one element per coordinate. */
    predicate Valid()
    {
      |data| == Product(shape)
    }
  }

  function Rank(a: NdArray): nat
  {
    |a.shape|
  }

  /** Number of elements of an array of shape `s`. */
  function Product(s: Shape): nat
  {
    if s == [] then 1 else s[0] * Product(s[1..])
  }

  /** The shape of `k` leading axes of size 1. */
  function Ones(k: nat): (r: Shape)
    ensures |r| == k && forall i :: 0 <= i < k ==> r[i] == 1
  {
    seq(k, _ => 1)
  }

  /** `c` addresses an element of an array of shape `s`. */
  predicate InBounds(s: Shape, c: Coord)
  {
    |c| == |s| && forall i :: 0 <= i < |s| ==> c[i] < s[i]
  }

  lemma InBoundsCons(s: Shape, x: nat, rest: Coord)
    requires s != [] && x < s[0] && InBounds(s[1..], rest)
    ensures InBounds(s, [x] + rest)
  {
    var c := [x] + rest;
    forall i | 0 <= i < |s|
      ensures c[i] < s[i]
    {
      if i > 0 {
        assert c[i] == rest[i - 1] && s[i] == s[1..][i - 1];
      }
    }
  }

  lemma MulMonotone(a: int, b: int, m: nat)
    ensures a <= b ==> a * m <= b * m
  {
    assert (b - a) * m == b * m - a * m;
  }

  lemma MulStrictBound(x: nat, y: nat, n: nat, m: nat)
    requires x < n && y < m
    ensures x * m + y < n * m
  {
    MulMonotone(x + 1, n, m);
    assert (x + 1) * m == x * m + m;
  }

  /** Row-major position of coordinate `c`: the last axis varies fastest. */
  function Offset(s: Shape, c: Coord): (o: nat)
    requires InBounds(s, c)
    ensures o < Product(s)
  {
    if s == [] then 0
    else
      assert InBounds(s[1..], c[1..]);
      var rest := Offset(s[1..], c[1..]);
      MulStrictBound(c[0], rest, s[0], Product(s[1..]));
      c[0] * Product(s[1..]) + rest
  }

  lemma DivModBound(p: nat, n: nat, m: nat)
    requires p < n * m
    ensures m > 0 && 0 <= p / m < n && 0 <= p % m < m
    ensures p == (p / m) * m + p % m
  {
    MulMonotone(n, p / m, m);
  }

  lemma DivModUnique(x: nat, y: nat, m: nat)
    requires y < m
    ensures (x * m + y) / m == x && (x * m + y) % m == y
  {
    var v := x * m + y;
    var q, r := v / m, v % m;
    assert v == q * m + r;
    MulMonotone(x + 1, q, m);
    MulMonotone(q + 1, x, m);
  }

  /** The `p`-th coordinate of shape `s` in row-major order: the coordinate
      whose row-major position is `p`. */
  function Unravel(s: Shape, p: nat): (c: Coord)
    requires p < Product(s)
    ensures InBounds(s, c) && Offset(s, c) == p
  {
    if s == [] then []
    else
      var m := Product(s[1..]);
      DivModBound(p, s[0], m);
      var q, r := p / m, p % m;
      var rest := Unravel(s[1..], r);
      var c := [q] + rest;
      InBoundsCons(s, q, rest);
      assert c[0] == q && c[1..] == rest;
      assert Offset(s, c) == q * m + r;
      c
  }

  /** Strict lexicographic order on coordinates of equal length. */
  predicate LexLess(c: Coord, d: Coord)
    decreases |c|
  {
    |c| > 0 && |d| > 0 &&
    (c[0] < d[0] || (c[0] == d[0] && LexLess(c[1..], d[1..])))
  }

  /** Every in-bounds coordinate is enumerated, at its own row-major position. */
  lemma {:induction false} UnravelOffset(s: Shape, c: Coord)
    requires InBounds(s, c)
    ensures Unravel(s, Offset(s, c)) == c
  {
    if s != [] {
      assert InBounds(s[1..], c[1..]);
      var m := Product(s[1..]);
      var rest := Offset(s[1..], c[1..]);
      DivModUnique(c[0], rest, m);
      UnravelOffset(s[1..], c[1..]);
      assert c == [c[0]] + c[1..];
    }
  }

  lemma DivMonotone(p: nat, q: nat, m: nat)
    requires p < q && m > 0
    ensures p / m <= q / m
    ensures p / m == q / m ==> p % m < q % m
  {
    MulMonotone(q / m + 1, p / m, m);
  }

  /** Enumerating positions 0, 1, 2, ... visits coordinates in strictly
      increasing lexicographic order. */
  lemma {:induction false} UnravelLexOrder(s: Shape, p: nat, q: nat)
    requires p < q < Product(s)
    ensures LexLess(Unravel(s, p), Unravel(s, q))
  {
    if s != [] {
      var m := Product(s[1..]);
      DivModBound(q, s[0], m);
      DivMonotone(p, q, m);
      var c, d := Unravel(s, p), Unravel(s, q);
      assert c[0] == p / m && d[0] == q / m;
      if p / m == q / m {
        DivModBound(p, s[0], m);
        assert c[1..] == Unravel(s[1..], p % m);
        assert d[1..] == Unravel(s[1..], q % m);
        UnravelLexOrder(s[1..], p % m, q % m);
      }
    }
  }

  /** The element at coordinate `c`. */
  function At(a: NdArray, c: Coord): int
    requires a.Valid() && InBounds(a.shape, c)
  {
    a.data[Offset(a.shape, c)]
  }

  /** Leading axes of size 1 do not change the element count. */
  lemma {:induction false} ProductOnes(k: nat, s: Shape)
    ensures Product(Ones(k) + s) == Product(s)
  {
    if k > 0 {
      assert (Ones(k) + s)[1..] == Ones(k - 1) + s;
      ProductOnes(k - 1, s);
    } else {
      assert Ones(k) + s == s;
    }
  }

  /** Under `k` leading axes of size 1 the coordinate starts with `k` zeros,
      and the row-major position is that of the remaining coordinate. */
  lemma {:induction false} OffsetOnes(k: nat, s: Shape, c: Coord)
    requires InBounds(Ones(k) + s, c)
    ensures forall i :: 0 <= i < k ==> c[i] == 0
    ensures InBounds(s, c[k..])
    ensures Offset(Ones(k) + s, c) == Offset(s, c[k..])
  {
    var t := Ones(k) + s;
    if k == 0 {
      assert t == s;
      assert c[k..] == c;
    } else {
      assert t[0] == 1;
      assert t[1..] == Ones(k - 1) + s;
      assert InBounds(t[1..], c[1..]);
      OffsetOnes(k - 1, s, c[1..]);
      assert c[1..][k - 1..] == c[k..];
      forall i | 0 <= i < k
        ensures c[i] == 0
      {
        if i > 0 {
          assert c[i] == c[1..][i - 1];
        }
      }
    }
  }
}

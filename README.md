# Broadcasting element-wise addition, modelled in Dafny

This project models a small NumPy-style broadcasting engine for
element-wise integer addition, `broadcasting.py`. It has four parts:

- **Rank alignment** (`minmax`, `match_dimensions`). When two arrays have
  different ranks, the lower-rank array gets leading axes of size 1.
- **Broadcast shape** (`broadcasted_shape`). The two shapes are scanned in
  pairs from the innermost axis outward. Each pair either gives a result
  axis or raises an error.
- **Stretched indexing** (`get_item`). Every position on an axis of size 1
  is read as 0.
- **Element-wise addition** (`add`). It aligns the ranks and computes the
  output shape. It then fills a fresh buffer, cell by cell in row-major
  order, with the sum of the two stretched lookups.

An ndarray is modelled as a value `NdArray(shape, data)`. The data is the
flat row-major element list, and `Valid()` says there is one element per
coordinate. The modules are:

- `arrays.dfy`, module `Arrays`: shapes, coordinates, row-major positions
  (`Offset`), the row-major enumeration of coordinates that `np.ndindex`
  performs (`Unravel`), element access (`At`), and leading size-1 axes
  (`Ones`).
- `broadcasting.dfy`, module `Broadcasting`: the four parts.
  - `broadcasted_shape` is the imperative method `BroadcastedShape`. It
    builds the shape by prepending inside a loop, and it is proved equal to
    the declarative `BroadcastShape`.
  - `add` is the method `Add`. It is proved equal to the specification
    function `Sum`. Its loop is the method `Fill`, which fills a fresh
    `array<int>` and is proved equal to `Cells`, the cell data of `Sum`.
  - The declarative `BroadcastShape` and `Sum` are the specifications that
    the `BroadcastedShape` and `Add` rows below refer to. Their meaning is
    stated by the `BroadcastShape...` and `Sum...` lemmas.
  - `get_item` is the function `GetItem`, built on `StretchIndex`. What it
    reads is stated by the `GetItem...` lemmas, `GetItemAt` above all.
- `properties.dfy`, module `BroadcastingProperties`: lemmas about the
  broadcast-shape algebra, stretched indexing, padding and the value of
  every output cell, plus the sample computation whose result is printed at
  the end of the file.

Points where the model follows the code closely:

- The error carries the two shapes passed to `broadcasted_shape`. Inside
  `add` these are the shapes after alignment, not the caller's shapes,
  because line 77 rebinds `arr` and `arr2`. They also come in the order
  `match_dimensions` returns: the padded lower-rank array first. So
  `add(a, b)` with `a` of higher rank reports `b`'s padded shape first.
  `SumShape` states this.
- `broadcasted_shape` pairs the reversed shapes with `zip`, so for shapes
  of different rank it looks only at the trailing `min` axes. The result
  then has the shorter rank: (2,3) against (3,) gives (3,). The model keeps
  this behaviour (`BroadcastShapeTruncates`). `add` never reaches it,
  because it aligns the ranks first.
- `minmax` follows the tie rule of Python's `min` and `max`: on equal keys
  both return the first argument. `match_dimensions` calls it only when the
  ranks differ.
- A result axis is not always the larger of the pair: 1 against 0 gives 0,
  as the code's branches do.

## Model

| member | source | states |
|---|---|---|
| `Broadcasting.MinMax` | broadcasting.py:11-13 | both results come from the pair; the first has the least key and the second the greatest; on equal keys both are the first argument |
| `Broadcasting.Pad` | broadcasting.py:30 | the resize to `(1,)*difference + ts` adds `difference` leading axes of size 1 in front of the original axes, keeps the element list, and keeps the array valid exactly when the original was |
| `Broadcasting.MatchDimensions` | broadcasting.py:16-30 | equal ranks return both arrays unchanged and in order; otherwise both results have the larger rank, the first is the lower-rank array padded with leading 1s and the second is the higher-rank array unchanged, whatever the argument order; validity is kept |
| `BroadcastingProperties.MatchDimensionsOrderFree` | broadcasting.py:26-30 | for different ranks, swapping the arguments gives the same aligned pair |
| `Arrays.ProductOnes` | broadcasting.py:30 | prepending axes of size 1 leaves the element count unchanged, so the resize is a reshape |
| `Arrays.OffsetOnes` | broadcasting.py:30 | under leading size-1 axes a coordinate starts with zeros and has the row-major position of its remaining positions |
| `BroadcastingProperties.PadGetItem` | broadcasting.py:30 | reading the padded array at a coordinate reads the original array at the coordinate with the leading positions removed |
| `Broadcasting.BroadcastedShape` | broadcasting.py:42-57 | the loop over the reversed zip, prepending each axis and stopping at the first mismatch, returns exactly `BroadcastShape`: the per-axis broadcast sizes, or the error with both shapes and no partial shape |
| `BroadcastingProperties.BroadcastShapeRank` | broadcasting.py:46 | a successful result has the smaller of the two ranks, and the common rank for equal ranks |
| `BroadcastingProperties.BroadcastShapeFailsFromRight` | broadcasting.py:46-55 | counting from the innermost axis, the result fails exactly when some paired axes are unequal and neither is 1; the error reports both shapes whole |
| `BroadcastingProperties.BroadcastShapeAxesFromRight` | broadcasting.py:46-50 | counting from the innermost axis, each axis of a successful result is the broadcast size of its pair, and every pair matches |
| `BroadcastingProperties.BroadcastShapeEqualRank` | broadcasting.py:47-55 | for equal ranks: success exactly when every pair is equal or has a 1; result axis `dim` when `dim == dim2` or `dim2 == 1`, and `dim2` when `dim == 1`; the error carries both shapes |
| `BroadcastingProperties.BroadcastShapeIdentity` | broadcasting.py:47-48 | a shape broadcast with itself is itself |
| `BroadcastingProperties.BroadcastShapeOnes` | broadcasting.py:47-50 | an all-1 shape of the same rank is absorbed on either side |
| `BroadcastingProperties.BroadcastShapeSymmetric` | broadcasting.py:37-40 | swapping the shapes fails exactly when the original order fails, and otherwise gives the same shape |
| `BroadcastingProperties.BroadcastShapeMismatch` | broadcasting.py:51-55 | (3,4) against (3,5) raises the error with both shapes |
| `BroadcastingProperties.BroadcastShapeStretchRow` | broadcasting.py:47-50 | (2,3) against (1,3) gives (2,3) |
| `BroadcastingProperties.BroadcastShapeTruncates` | broadcasting.py:46 | without alignment the zip stops at the shorter shape: the outcome is that of the longer shape cut to the shorter one's rank |
| `BroadcastingProperties.BroadcastShapeTruncatedExamples` | broadcasting.py:46-55 | (2,3) against (2,) fails with both shapes, and (2,3) against (3,) gives (3,) |
| `Broadcasting.StretchIndex` | broadcasting.py:68-71 | the zip stops at the shorter of shape and coordinate; every position is kept or turned to 0, and it is always kept on an axis that is not 1; a coordinate in stretched bounds becomes one inside the array's own bounds |
| `Broadcasting.BroadcastStretches` | broadcasting.py:47-50 | after a successful equal-rank broadcast every input axis is 1 or equal to the result axis |
| `Broadcasting.StretchInBounds` | broadcasting.py:68-71 | for an input shape whose every axis is 1 or equal to the output's (`Stretches(s, out)`), every output coordinate is a valid stretched coordinate, and its rewritten coordinate is within the input's own shape |
| `BroadcastingProperties.StretchIndexInBounds` | broadcasting.py:68-71 | a coordinate already inside the array's own shape is not rewritten |
| `BroadcastingProperties.StretchIndexIdempotent` | broadcasting.py:68-71 | rewriting a rewritten coordinate changes nothing |
| `BroadcastingProperties.GetItemAt` | broadcasting.py:60-72 | the stretched lookup reads the element at the one in-bounds coordinate that agrees with the given one on every axis not of size 1, so it is 0 on every axis of size 1 |
| `BroadcastingProperties.GetItemInBounds` | broadcasting.py:68-72 | inside the array's own shape the stretched lookup is the plain element lookup |
| `BroadcastingProperties.GetItemStretched` | broadcasting.py:68-72 | along an axis of size 1 every position reads the same element |
| `Arrays.Offset` | broadcasting.py:80 | the row-major position of an in-bounds coordinate lies inside the buffer of `np.empty(output_shape)` |
| `Arrays.Unravel` | broadcasting.py:82 | the `p`-th coordinate that `np.ndindex` yields is in bounds and has row-major position `p`, so each buffer cell is written by exactly one iteration |
| `Arrays.UnravelOffset` | broadcasting.py:82 | every in-bounds coordinate is enumerated, at its own row-major position |
| `Arrays.UnravelLexOrder` | broadcasting.py:82 | the coordinates are enumerated in strictly increasing lexicographic order, last axis fastest |
| `Broadcasting.Fill` | broadcasting.py:80-87 | filling a fresh buffer of the output size, storing at each coordinate in row-major order the sum of the two stretched lookups, gives exactly the cell data of `Sum` |
| `Broadcasting.Add` | broadcasting.py:75-89 | aligning, computing the shape by the loop, then filling the output returns exactly `Sum`; an error returns with no output |
| `BroadcastingProperties.SumShape` | broadcasting.py:77-80 | the sum succeeds exactly when the aligned shapes broadcast; its shape is their broadcast shape and the output is valid; otherwise the error carries the aligned shapes, padded lower-rank first |
| `BroadcastingProperties.SumEqualRank` | broadcasting.py:23-24 | for equal ranks the operands are compared as given: success, shape and error are those of `BroadcastShape` on the two shapes |
| `BroadcastingProperties.SumAtCoordinate` | broadcasting.py:82-87 | every output coordinate holds `get_item` of the first aligned array plus `get_item` of the second at that coordinate |
| `BroadcastingProperties.MatchDimensionsGetItem` | broadcasting.py:23-30 | each stretched read of an aligned array is the stretched read of its original array at the trailing positions, one per axis it has, whichever argument has the lower rank; hence the two aligned reads sum to the two original reads |
| `BroadcastingProperties.SumAtInputs` | broadcasting.py:77-87 | every output coordinate holds the sum of the two original arrays, each read with stretching at the trailing positions, one per axis it has |
| `BroadcastingProperties.CellsSwap` | broadcasting.py:87 | swapping the operands gives the same cell data, for operands that stretch to the same output shape |
| `BroadcastingProperties.SumCommutes` | broadcasting.py:87 | swapping the operands fails exactly when the original order fails, and otherwise gives the same array |
| `BroadcastingProperties.OuterSum` | broadcasting.py:93-94 | a (n,1) column plus a (1,m) row is the n-by-m array of pairwise sums |
| `BroadcastingProperties.RowBroadcast` | broadcasting.py:95-97 | a (m,) vector added to an n-by-m array is added to every row |
| `BroadcastingProperties.SampleOuterSum` | broadcasting.py:93-94 | the column 1..5 plus the row 1..6 is the 5-by-6 array whose cell (i, j) is (i + 1) + (j + 1) |
| `BroadcastingProperties.ChainedSumExample` | broadcasting.py:92-97 | the sample computation gives a 5-by-6 array whose cell (i, j) is (i + 1) + 2 * (j + 1) |

## Left out

- Printing the sample result (broadcasting.py:97) is I/O. Its input data
  is used in `ChainedSumExample`.
- NumPy storage and views. An ndarray is its shape plus its row-major
  element list. `np.empty` is a fresh `array<int>` local to `Fill`.
  `np.ndindex` is the row-major enumeration `Unravel`.
- `np.resize` in general: it repeats or truncates data to a new size.
  At line 30 the size never changes (`ProductOnes`), so only that case is
  modelled, as a reshape that keeps the data.
- Fixed-width `dtype=int` overflow (line 80). Elements are unbounded
  integers.
- Python's negative indices and indexing with fewer positions than axes.
  `GetItem` requires one position per axis and positions in bounds on
  every axis that is not stretched; `add` only calls it that way.
- The text of the error message. An error is modelled as the pair of
  shapes it reports.
- `Broadcasting.Add`: the inputs are values, so "the inputs are not
  modified" holds by construction rather than by a frame condition.
- `Broadcasting.Fill`: it enumerates output coordinates by position, taking
  the `p`-th coordinate from `Unravel`, and does not step an odometer as
  `np.ndindex` does. `UnravelLexOrder` and `UnravelOffset` show that the
  two visit the same coordinates in the same order.

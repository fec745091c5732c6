/**
 * The shuffle masks behind the `stack` and `concat` helpers
 * (lib/Conversion/XeTileToXeGPU/XeTileOpConversion.cpp): a vector shuffle
 * picks, for each slot of its result, one element of its two operands laid
 * end to end, and the masks are chosen so that two 2D vectors are merged
 * vertically or horizontally without disturbing the logical layout.
 */
module ShuffleMasks {
  import opened TileCommon

  /**
   * `vector.shuffle`: slot k of the result is element `mask[k]` of `v1`
   * followed by `v2` (for 2D operands the elements are rows).
   */
  function Shuffle<T>(v1: seq<T>, v2: seq<T>, mask: seq<int>): (r: seq<T>)
    requires forall k :: 0 <= k < |mask| ==> 0 <= mask[k] < |v1| + |v2|
  {
    seq(|mask|, k requires 0 <= k < |mask| => (v1 + v2)[mask[k]])
  }

  /** `std::iota(a + from, a + to, v)`: writes v, v + 1, ... into `a[from..to]`. */
  method IotaFill(a: array<int>, from: nat, to: nat, v: int)
    requires from <= to <= a.Length
    modifies a
    ensures a[..] == old(a[..])[..from] + Iota(v, to - from) + old(a[..])[to..]
  {
    var k := from;
    while k < to
      invariant from <= k <= to
      invariant a[..from] == old(a[..from]) && a[to..] == old(a[to..])
      invariant a[from..k] == Iota(v, k - from)
    {
      a[k] := v + (k - from);
      k := k + 1;
    }
    assert a[..] == a[..from] + a[from..to] + a[to..];
  }

  /** Two `std::iota` runs side by side leave `x[..s]` followed by both runs. */
  lemma TwoRuns(x: seq<int>, s: nat, m: nat, e: nat, run1: seq<int>, run2: seq<int>)
    requires s <= m <= e <= |x| && |run1| == m - s && |run2| == e - m
    ensures var y := x[..s] + run1 + x[m..];
            (y[..m] + run2 + y[e..])[..e] == x[..s] + run1 + run2
  {
    var y := x[..s] + run1 + x[m..];
    assert y[..m] == x[..s] + run1;
  }

  /** The mask `stack` shuffles two `rows x cols` vectors with: every row, in order. */
  method StackMask(shape: Shape) returns (mask: array<int>)
    requires |shape| == 2
    ensures fresh(mask)
    ensures mask[..] == Iota(0, shape[0] + shape[0])
  {
    mask := new int[shape[0] + shape[0]](_ => 0);
    IotaFill(mask, 0, mask.Length, 0);
    assert mask[..] == mask[0..mask.Length];
  }

  /** Stacking with that mask puts the rows of `q` below the rows of `p`. */
  lemma StackKeepsLayout<T>(p: seq<seq<T>>, q: seq<seq<T>>)
    requires |p| == |q|
    ensures Shuffle(p, q, Iota(0, |p| + |p|)) == p + q
  {
  }

  /**
   * Row i of the concat mask: the i-th row of the first operand, then the
   * i-th row of the second, as positions in the two flattened operands laid
   * end to end.
   */
  function MaskRow(rows: nat, c1: nat, c2: nat, i: nat): seq<int>
  {
    Iota(i * c1, c1) + Iota(rows * c1 + i * c2, c2)
  }

  function MaskRows(rows: nat, c1: nat, c2: nat): seq<seq<int>>
  {
    seq(rows, i requires 0 <= i < rows => MaskRow(rows, c1, c2, i))
  }

  /** The mask `getMask` builds for shapes `rows x c1` and `rows x c2`. */
  function ConcatMask(rows: nat, c1: nat, c2: nat): seq<int>
  {
    Flatten(MaskRows(rows, c1, c2))
  }

  /** `getMask`: fills the mask row by row, two `std::iota` runs per row. */
  method GetMask(shape1: Shape, shape2: Shape) returns (mask: array<int>)
    requires |shape1| == 2 && |shape2| == 2 && shape1[0] == shape2[0]
    ensures fresh(mask)
    ensures mask.Length == shape1[0] * shape1[1] + shape2[0] * shape2[1]
    ensures mask[..] == ConcatMask(shape1[0], shape1[1], shape2[1])
  {
    var rows, c1, c2 := shape1[0], shape1[1], shape2[1];
    var size1 := shape1[0] * shape1[1];
    var size2 := shape2[0] * shape2[1];
    mask := new int[size1 + size2](_ => 0);
    assert size1 + size2 == rows * (c1 + c2);
    var i := 0;
    while i < rows
      invariant 0 <= i <= rows
      invariant Pos(i, 0, c1 + c2) <= mask.Length
      invariant mask[..Pos(i, 0, c1 + c2)] == Flatten(MaskRows(rows, c1, c2)[..i])
    {
      FillMaskRow(mask, rows, c1, c2, size1, i);
      i := i + 1;
    }
    assert MaskRows(rows, c1, c2)[..rows] == MaskRows(rows, c1, c2);
    assert mask[..] == mask[..Pos(rows, 0, c1 + c2)];
  }

  /** The body of the `getMask` loop: the two `std::iota` runs of row i. */
  method FillMaskRow(mask: array<int>, rows: nat, c1: nat, c2: nat, size1: nat, i: nat)
    requires i < rows && size1 == rows * c1 && mask.Length == rows * (c1 + c2)
    requires mask[..Pos(i, 0, c1 + c2)] == Flatten(MaskRows(rows, c1, c2)[..i])
    modifies mask
    ensures Pos(i + 1, 0, c1 + c2) <= mask.Length
    ensures mask[..Pos(i + 1, 0, c1 + c2)] == Flatten(MaskRows(rows, c1, c2)[..i + 1])
  {
    var s := i * (c1 + c2);
    var m := s + c1;
    var e := m + c2;
    RowEndBound(i, rows, c1 + c2);
    ghost var before := mask[..];
    IotaFill(mask, s, m, i * c1);
    ghost var mid := mask[..];
    IotaFill(mask, m, e, size1 + i * c2);
    MaskRowFilled(before, mid, mask[..], rows, c1, c2, i, s, m, e);
  }

  /** One pass of the `getMask` loop extends the filled prefix by row i of the mask. */
  lemma MaskRowFilled(before: seq<int>, mid: seq<int>, after: seq<int>, rows: nat, c1: nat, c2: nat, i: nat,
                      s: nat, m: nat, e: nat)
    requires i < rows && s == Pos(i, 0, c1 + c2) && m == s + c1 && e == m + c2 && e <= |before|
    requires before[..s] == Flatten(MaskRows(rows, c1, c2)[..i])
    requires mid == before[..s] + Iota(i * c1, m - s) + before[m..]
    requires after == mid[..m] + Iota(rows * c1 + i * c2, e - m) + mid[e..]
    ensures e == Pos(i + 1, 0, c1 + c2) && e <= |after|
    ensures after[..e] == Flatten(MaskRows(rows, c1, c2)[..i + 1])
  {
    var all := MaskRows(rows, c1, c2);
    TwoRuns(before, s, m, e, Iota(i * c1, c1), Iota(rows * c1 + i * c2, c2));
    assert e == Pos(i + 1, 0, c1 + c2);
    assert all[i] == MaskRow(rows, c1, c2, i);
    assert after[..e] == Flatten(all[..i]) + all[i];
    assert all[..i + 1] == all[..i] + [all[i]];
    assert Flatten([all[i]]) == all[i];
    FlattenAppend(all[..i], [all[i]]);
  }

  lemma MaskRowsUniform(rows: nat, c1: nat, c2: nat)
    ensures Uniform(MaskRows(rows, c1, c2), c1 + c2)
  {
  }

  /** Where the element in slot j of row i of the concatenation comes from. */
  function MaskEntry(rows: nat, c1: nat, c2: nat, i: nat, j: nat): int
  {
    if j < c1 then Pos(i, j, c1) else rows * c1 + Pos(i, j - c1, c2)
  }

  lemma ConcatMaskAt(rows: nat, c1: nat, c2: nat, i: nat, j: nat)
    requires i < rows && j < c1 + c2
    ensures Pos(i, j, c1 + c2) < |ConcatMask(rows, c1, c2)|
    ensures ConcatMask(rows, c1, c2)[Pos(i, j, c1 + c2)] == MaskEntry(rows, c1, c2, i, j)
  {
    MaskRowsUniform(rows, c1, c2);
    FlattenAt(MaskRows(rows, c1, c2), c1 + c2, i, j);
  }

  lemma ConcatMaskLength(rows: nat, c1: nat, c2: nat)
    ensures |ConcatMask(rows, c1, c2)| == rows * c1 + rows * c2
  {
    MaskRowsUniform(rows, c1, c2);
    FlattenUniformLength(MaskRows(rows, c1, c2), c1 + c2);
    assert rows * (c1 + c2) == rows * c1 + rows * c2;
  }

  /**
   * The mask has one slot per element of the two operands; slot j of row i
   * names element (i, j) of the first operand when j < c1, and element
   * (i, j - c1) of the second one otherwise.
   */
  lemma {:induction false} ConcatMaskLayout(rows: nat, c1: nat, c2: nat)
    ensures |ConcatMask(rows, c1, c2)| == rows * c1 + rows * c2
    ensures forall i: nat, j: nat :: i < rows && j < c1 + c2 ==> MaskSlot(rows, c1, c2, i, j)
  {
    ConcatMaskLength(rows, c1, c2);
    forall i: nat, j: nat | i < rows && j < c1 + c2
      ensures MaskSlot(rows, c1, c2, i, j)
    {
      ConcatMaskAt(rows, c1, c2, i, j);
    }
  }

  /** Slot j of row i of the concat mask holds `MaskEntry(rows, c1, c2, i, j)`. */
  predicate MaskSlot(rows: nat, c1: nat, c2: nat, i: nat, j: nat)
  {
    Pos(i, j, c1 + c2) < |ConcatMask(rows, c1, c2)| &&
    ConcatMask(rows, c1, c2)[Pos(i, j, c1 + c2)] == MaskEntry(rows, c1, c2, i, j)
  }

  /** The documented example: a 2x4 and a 2x3 operand. */
  lemma ConcatMaskExample()
    ensures ConcatMask(2, 4, 3) == [0, 1, 2, 3, 8, 9, 10, 4, 5, 6, 7, 11, 12, 13]
  {
    var rows := MaskRows(2, 4, 3);
    assert rows[0] == [0, 1, 2, 3, 8, 9, 10];
    assert rows[1] == [4, 5, 6, 7, 11, 12, 13];
    assert rows[1..][1..] == [];
  }

  /** Cuts `xs` into `h` rows of `w`: a shape cast to a 2D vector. */
  function Unflatten<T>(xs: seq<T>, h: nat, w: nat): seq<seq<T>>
    requires |xs| == h * w
  {
    if h == 0 then []
    else
      assert |xs| == (h - 1) * w + w;
      [xs[..w]] + Unflatten(xs[w..], h - 1, w)
  }

  lemma {:induction false} UnflattenAt<T>(xs: seq<T>, h: nat, w: nat, i: nat, j: nat)
    requires |xs| == h * w && i < h && j < w
    ensures |Unflatten(xs, h, w)| == h && |Unflatten(xs, h, w)[i]| == w
    ensures Pos(i, j, w) < |xs| && Unflatten(xs, h, w)[i][j] == xs[Pos(i, j, w)]
  {
    PosBound(i, j, h, w);
    UnflattenLength(xs, h, w);
    UnflattenCons(xs, h, w);
    if i > 0 {
      UnflattenAt(xs[w..], h - 1, w, i - 1, j);
      NextRow(i - 1, w);
    }
  }

  /** A non-empty cut is the first row followed by the cut of the rest. */
  lemma UnflattenCons<T>(xs: seq<T>, h: nat, w: nat)
    requires |xs| == h * w && h > 0
    ensures w <= |xs| && |xs[w..]| == (h - 1) * w
    ensures Unflatten(xs, h, w) == [xs[..w]] + Unflatten(xs[w..], h - 1, w)
  {
    assert |xs| == (h - 1) * w + w;
  }

  lemma {:induction false} UnflattenRowLength<T>(xs: seq<T>, h: nat, w: nat, i: nat)
    requires |xs| == h * w && i < h
    ensures |Unflatten(xs, h, w)| == h && |Unflatten(xs, h, w)[i]| == w
  {
    assert |xs| == (h - 1) * w + w;
    UnflattenLength(xs, h, w);
    if i > 0 {
      UnflattenRowLength(xs[w..], h - 1, w, i - 1);
    }
  }

  lemma UnflattenUniform<T>(xs: seq<T>, h: nat, w: nat)
    requires |xs| == h * w
    ensures |Unflatten(xs, h, w)| == h && Uniform(Unflatten(xs, h, w), w)
  {
    UnflattenLength(xs, h, w);
    forall i | 0 <= i < h
      ensures |Unflatten(xs, h, w)[i]| == w
    {
      UnflattenRowLength(xs, h, w, i);
    }
  }

  lemma {:induction false} UnflattenLength<T>(xs: seq<T>, h: nat, w: nat)
    requires |xs| == h * w
    ensures |Unflatten(xs, h, w)| == h
  {
    if h > 0 {
      assert |xs| == (h - 1) * w + w;
      UnflattenLength(xs[w..], h - 1, w);
    }
  }

  /** Every slot of the concat mask for two `rows x cols` operands names an element of one of them. */
  lemma ConcatMaskInRange(rows: nat, cols: nat)
    ensures forall k :: 0 <= k < |ConcatMask(rows, cols, cols)| ==> 0 <= ConcatMask(rows, cols, cols)[k] < rows * cols + rows * cols
  {
    var mask := ConcatMask(rows, cols, cols);
    forall k | 0 <= k < |mask|
      ensures 0 <= mask[k] < rows * cols + rows * cols
    {
      ConcatMaskLength(rows, cols, cols);
      PosSplit(k, rows, cols + cols);
      var i, j := k / (cols + cols), k % (cols + cols);
      ConcatMaskAt(rows, cols, cols, i, j);
      MaskEntryInRange(rows, cols, i, j);
    }
  }

  lemma MaskEntryInRange(rows: nat, cols: nat, i: nat, j: nat)
    requires i < rows && j < cols + cols
    ensures 0 <= MaskEntry(rows, cols, cols, i, j) < rows * cols + rows * cols
  {
    if j < cols {
      PosBound(i, j, rows, cols);
    } else {
      PosBound(i, j - cols, rows, cols);
    }
  }

  /**
   * `concat` of two `rows x cols` vectors: both are cast to 1D, shuffled with
   * `getMask(shape, shape)` and the result is cast to `rows x 2*cols`.
   */
  function Concat<T>(p: seq<seq<T>>, q: seq<seq<T>>, cols: nat): (r: seq<seq<T>>)
    requires |p| == |q| && Uniform(p, cols) && Uniform(q, cols)
    ensures |r| == |p| && Uniform(r, cols + cols)
  {
    FlattenUniformLength(p, cols);
    FlattenUniformLength(q, cols);
    ConcatMaskLayout(|p|, cols, cols);
    ConcatMaskInRange(|p|, cols);
    assert |p| * (cols + cols) == |p| * cols + |p| * cols;
    var flat := Shuffle(Flatten(p), Flatten(q), ConcatMask(|p|, cols, cols));
    UnflattenUniform(flat, |p|, cols + cols);
    Unflatten(Shuffle(Flatten(p), Flatten(q), ConcatMask(|p|, cols, cols)), |p|, cols + cols)
  }

  lemma ConcatAt<T>(p: seq<seq<T>>, q: seq<seq<T>>, cols: nat, i: nat, j: nat)
    requires |p| == |q| && Uniform(p, cols) && Uniform(q, cols)
    requires i < |p| && j < cols + cols
    ensures |Concat(p, q, cols)| == |p| && |Concat(p, q, cols)[i]| == cols + cols
    ensures Concat(p, q, cols)[i][j] == (p[i] + q[i])[j]
  {
    var rows := |p|;
    FlattenUniformLength(p, cols);
    FlattenUniformLength(q, cols);
    ConcatMaskLayout(rows, cols, cols);
    ConcatMaskInRange(rows, cols);
    var mask := ConcatMask(rows, cols, cols);
    var flat := Shuffle(Flatten(p), Flatten(q), mask);
    assert |flat| == rows * (cols + cols);
    UnflattenAt(flat, rows, cols + cols, i, j);
    ConcatMaskAt(rows, cols, cols, i, j);
    var k := Pos(i, j, cols + cols);
    assert flat[k] == (Flatten(p) + Flatten(q))[mask[k]];
    if j < cols {
      FlattenAt(p, cols, i, j);
    } else {
      FlattenAt(q, cols, i, j - cols);
    }
  }

  /** `concat` puts row i of `q` to the right of row i of `p`, for every row. */
  lemma ConcatKeepsLayout<T>(p: seq<seq<T>>, q: seq<seq<T>>, cols: nat)
    requires |p| == |q| && Uniform(p, cols) && Uniform(q, cols)
    ensures Concat(p, q, cols) == seq(|p|, i requires 0 <= i < |p| => p[i] + q[i])
  {
    var r := Concat(p, q, cols);
    var want := seq(|p|, i requires 0 <= i < |p| => p[i] + q[i]);
    forall i | 0 <= i < |p|
      ensures r[i] == want[i]
    {
      forall j | 0 <= j < cols + cols
        ensures r[i][j] == want[i][j]
      {
        ConcatAt(p, q, cols, i, j);
      }
    }
  }
}

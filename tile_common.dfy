/**
 * What the XeTile-to-XeGPU lowering patterns share
 * (lib/Conversion/XeTileToXeGPU/XeTileOpConversion.cpp): static shapes,
 * row-major positions in a grid of blocks, flattening a grid row by row,
 * and how a pattern's `matchAndRewrite` ends.
 */
module TileCommon {
  /** A static vector or tile shape; MLIR static dimensions are non-negative. */
  type Shape = seq<nat>

  /** How `matchAndRewrite` ends: the replacement values, a silent failure, or an error emitted on the op. */
  datatype Rewrite<T> = Rewritten(ops: T) | MatchFailure | OpError(message: string)

  /** Position of block (i, j) in a row-major grid `w` blocks wide. */
  function Pos(i: nat, j: nat, w: nat): nat
  {
    i * w + j
  }

  lemma PosBound(i: nat, j: nat, h: nat, w: nat)
    requires i < h && j < w
    ensures Pos(i, j, w) < h * w
  {
    calc {
      Pos(i, j, w);
    <  i * w + w;
    == (i + 1) * w;
    <= { MulMonotone(i + 1, h, w); } h * w;
    }
  }

  /** Row i of a grid h rows high and w wide ends within the grid. */
  lemma RowEndBound(i: nat, h: nat, w: nat)
    requires i < h
    ensures Pos(i, 0, w) + w == Pos(i + 1, 0, w) <= h * w
  {
    MulMonotone(i + 1, h, w);
  }

  /** One past the last block of row i is the first block of row i + 1. */
  lemma NextRow(i: nat, w: nat)
    ensures Pos(i, w, w) == Pos(i + 1, 0, w)
  {
  }

  lemma MulMonotone(a: nat, b: nat, w: nat)
    requires a <= b
    ensures a * w <= b * w
  {
  }

  /** `MulMonotone` as an implication, for proofs that must not branch on an impossible case. */
  lemma MulMonotoneIf(a: nat, b: nat, w: nat)
    ensures a <= b ==> a * w <= b * w
  {
    if a <= b {
      MulMonotone(a, b, w);
    }
  }

  /** Distinct blocks of a grid have distinct positions. */
  lemma PosInjective(i: nat, j: nat, i': nat, j': nat, w: nat)
    requires j < w && j' < w && Pos(i, j, w) == Pos(i', j', w)
    ensures i == i' && j == j'
  {
    MulMonotoneIf(i + 1, i', w);
    MulMonotoneIf(i' + 1, i, w);
  }

  /** Every position below h * w is that of exactly one block. */
  lemma PosSplit(p: nat, h: nat, w: nat)
    requires p < h * w
    ensures w > 0 && p / w < h && p % w < w && Pos(p / w, p % w, w) == p
  {
    if w == 0 {
      assert false;
    }
    MulMonotoneIf(h, p / w, w);
  }

  /** Dividing a position by the grid's width gives back the row and the column. */
  lemma PosDivMod(i: nat, j: nat, w: nat)
    requires j < w
    ensures Pos(i, j, w) / w == i && Pos(i, j, w) % w == j
  {
    var p := Pos(i, j, w);
    PosBound(i, j, i + 1, w);
    PosSplit(p, i + 1, w);
    PosInjective(p / w, p % w, i, j, w);
  }

  /** The rows of a grid, one after the other. */
  function Flatten<T>(rows: seq<seq<T>>): seq<T>
  {
    if rows == [] then [] else rows[0] + Flatten(rows[1..])
  }

  lemma {:induction false} FlattenAppend<T>(a: seq<seq<T>>, b: seq<seq<T>>)
    ensures Flatten(a + b) == Flatten(a) + Flatten(b)
  {
    if a == [] {
      assert a + b == b;
    } else {
      assert (a + b)[1..] == a[1..] + b;
      FlattenAppend(a[1..], b);
    }
  }

  /** Flattening one more row appends that row. */
  lemma FlattenSnoc<T>(rows: seq<seq<T>>, i: nat)
    requires i < |rows|
    ensures Flatten(rows[..i + 1]) == Flatten(rows[..i]) + rows[i]
  {
    assert rows[..i + 1] == rows[..i] + [rows[i]];
    FlattenAppend(rows[..i], [rows[i]]);
    assert Flatten([rows[i]]) == rows[i] + Flatten([]);
  }

  predicate Uniform<T>(rows: seq<seq<T>>, w: nat)
  {
    forall i :: 0 <= i < |rows| ==> |rows[i]| == w
  }

  lemma {:induction false} FlattenUniformLength<T>(rows: seq<seq<T>>, w: nat)
    requires Uniform(rows, w)
    ensures |Flatten(rows)| == |rows| * w
  {
    if rows != [] {
      FlattenUniformLength(rows[1..], w);
    }
  }

  lemma {:induction false} FlattenAt<T>(rows: seq<seq<T>>, w: nat, i: nat, j: nat)
    requires Uniform(rows, w) && i < |rows| && j < w
    ensures Pos(i, j, w) < |Flatten(rows)| && Flatten(rows)[Pos(i, j, w)] == rows[i][j]
  {
    FlattenUniformLength(rows, w);
    PosBound(i, j, |rows|, w);
    if i > 0 {
      FlattenAt(rows[1..], w, i - 1, j);
      assert Pos(i, j, w) == |rows[0]| + Pos(i - 1, j, w);
    }
  }

  /** A grid whose rows are all `w` long flattens to `|rows| * w` elements, block (i, j) at `Pos(i, j, w)`. */
  lemma {:induction false} FlattenUniform<T>(rows: seq<seq<T>>, w: nat)
    requires Uniform(rows, w)
    ensures |Flatten(rows)| == |rows| * w
    ensures forall i, j :: 0 <= i < |rows| && 0 <= j < w ==>
              Pos(i, j, w) < |Flatten(rows)| && Flatten(rows)[Pos(i, j, w)] == rows[i][j]
  {
    FlattenUniformLength(rows, w);
    forall i, j | 0 <= i < |rows| && 0 <= j < w
      ensures Pos(i, j, w) < |Flatten(rows)| && Flatten(rows)[Pos(i, j, w)] == rows[i][j]
    {
      FlattenAt(rows, w, i, j);
    }
  }

  /** `n` consecutive integers from `start`: what `std::iota` writes. */
  function Iota(start: int, n: nat): (r: seq<int>)
    ensures |r| == n
    ensures forall k :: 0 <= k < n ==> r[k] == start + k
  {
    seq(n, k => start + k)
  }

  predicate IsPowerOfTwo(n: nat)
    decreases n
  {
    n == 1 || (n > 1 && n % 2 == 0 && IsPowerOfTwo(n / 2))
  }

  function Product(s: Shape): nat
  {
    if s == [] then 1 else s[0] * Product(s[1..])
  }

  /** The decimal digits of `n`, as `operator<<` prints an unsigned count. */
  function DecimalString(n: nat): (r: string)
    ensures |r| > 0 && forall k :: 0 <= k < |r| ==> '0' <= r[k] <= '9'
  {
    if n < 10 then [DigitChar(n)] else DecimalString(n / 10) + [DigitChar(n % 10)]
  }

  function DigitChar(d: nat): (c: char)
    requires d < 10
    ensures '0' <= c <= '9' && c as int - '0' as int == d
  {
    (d + '0' as int) as char
  }

  /** The number a string of decimal digits denotes. */
  function DecimalValue(s: string): nat
    requires forall k :: 0 <= k < |s| ==> '0' <= s[k] <= '9'
  {
    if s == [] then 0 else 10 * DecimalValue(s[..|s| - 1]) + (s[|s| - 1] as int - '0' as int)
  }

  /** Printing a count and reading the digits back gives the count. */
  lemma {:induction false} DecimalRoundTrip(n: nat)
    ensures DecimalValue(DecimalString(n)) == n
  {
    var s := DecimalString(n);
    if n >= 10 {
      DecimalRoundTrip(n / 10);
      assert s[..|s| - 1] == DecimalString(n / 10);
    }
  }
}

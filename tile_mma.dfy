/**
 * The `tile_mma` lowering (`SgTileMMAOpPattern` in
 * lib/Conversion/XeTileToXeGPU/XeTileOpConversion.cpp): A is an `M x K`
 * grid of blocks, B a `K x N` grid, and block (i, j) of the result is a
 * chain of `dpas` operations over k = 0 .. K - 1, started from block (i, j)
 * of the accumulator C when the op has one.
 */
module TileMma {
  import opened Wrappers
  import opened TileCommon

  /** An accumulator: none yet, a block of C, or a `dpas` of a block of A, a block of B and an earlier accumulator. */
  datatype Acc<V> = NoAcc | AccInput(c: V) | Dpas(shape: Shape, lhs: V, rhs: V, acc: Acc<V>)

  const RankError: string := "Operand A and B for mma should be 4d.\n"
  const SizeError: string := "A and B size doesn't match. A should be m x k, and B should be k x n"

  /** The (lhs, rhs) operands of an accumulator chain, first `dpas` first. */
  function Steps<V>(acc: Acc<V>): seq<(V, V)>
  {
    match acc
    case Dpas(_, l, r, inner) => Steps(inner) + [(l, r)]
    case _ => []
  }

  /** Where an accumulator chain starts. */
  function Base<V>(acc: Acc<V>): Acc<V>
  {
    match acc
    case Dpas(_, _, _, inner) => Base(inner)
    case _ => acc
  }

  /** The grids the shapes promise: `M * K` blocks of A, `K * N` of B and `M * N` of C. */
  predicate MmaOperands<V>(aShape: Shape, bShape: Shape, a: seq<V>, b: seq<V>, c: Option<seq<V>>)
  {
    (|aShape| == 4 && |bShape| == 4 && aShape[3] == bShape[2] && aShape[1] == bShape[0]) ==>
      |a| == aShape[0] * aShape[1] && |b| == bShape[0] * bShape[1] && (c.Some? ==> |c.value| == aShape[0] * bShape[1])
  }

  /** The accumulator block (i, j) starts from. */
  function Init<V>(c: Option<seq<V>>, m: nat, n: nat, i: nat, j: nat): Acc<V>
    requires c.Some? ==> |c.value| == m * n
    requires i < m && j < n
  {
    if c.Some? then PosBound(i, j, m, n); AccInput(c.value[Pos(i, j, n)]) else NoAcc
  }

  /** Block (i, j) after `steps` iterations of the k loop. */
  function Chain<V>(a: seq<V>, b: seq<V>, init: Acc<V>, sub: Shape, m: nat, kk: nat, n: nat, i: nat, j: nat, steps: nat): Acc<V>
    requires |a| == m * kk && |b| == kk * n && i < m && j < n && steps <= kk
  {
    if steps == 0 then init
    else
      var k := steps - 1;
      PosBound(i, k, m, kk);
      PosBound(k, j, kk, n);
      Dpas(sub, a[Pos(i, k, kk)], b[Pos(k, j, n)], Chain(a, b, init, sub, m, kk, n, i, j, k))
  }

  /**
   * `acc` is the chain of block (i, j): it starts from `init` and takes, for
   * k in increasing order, block (i, k) of A and block (k, j) of B.
   */
  ghost predicate ChainsOver<V>(acc: Acc<V>, init: Acc<V>, a: seq<V>, b: seq<V>, kk: nat, n: nat, i: nat, j: nat)
  {
    Base(acc) == init && |Steps(acc)| == kk &&
    forall k :: 0 <= k < kk ==>
      Pos(i, k, kk) < |a| && Pos(k, j, n) < |b| && Steps(acc)[k] == (a[Pos(i, k, kk)], b[Pos(k, j, n)])
  }

  /** The accumulation order of the k loop. */
  lemma {:induction false} ChainOrder<V>(a: seq<V>, b: seq<V>, init: Acc<V>, sub: Shape, m: nat, kk: nat, n: nat, i: nat, j: nat, steps: nat)
    requires |a| == m * kk && |b| == kk * n && i < m && j < n && steps <= kk
    requires !init.Dpas?
    ensures Base(Chain(a, b, init, sub, m, kk, n, i, j, steps)) == init
    ensures |Steps(Chain(a, b, init, sub, m, kk, n, i, j, steps))| == steps
    ensures forall k :: 0 <= k < steps ==>
              Pos(i, k, kk) < |a| && Pos(k, j, n) < |b| &&
              Steps(Chain(a, b, init, sub, m, kk, n, i, j, steps))[k] == (a[Pos(i, k, kk)], b[Pos(k, j, n)])
  {
    if steps > 0 {
      ChainOrder(a, b, init, sub, m, kk, n, i, j, steps - 1);
      forall k | 0 <= k < steps
        ensures Pos(i, k, kk) < |a| && Pos(k, j, n) < |b|
      {
        PosBound(i, k, m, kk);
        PosBound(k, j, kk, n);
      }
    }
  }

  /** Row i of the result, its first `len` blocks. */
  function MmaRow<V>(a: seq<V>, b: seq<V>, c: Option<seq<V>>, sub: Shape, m: nat, kk: nat, n: nat, i: nat, len: nat): (r: seq<Acc<V>>)
    requires |a| == m * kk && |b| == kk * n && (c.Some? ==> |c.value| == m * n) && i < m && len <= n
    ensures |r| == len
  {
    seq(len, j requires 0 <= j < len => Chain(a, b, Init(c, m, n, i, j), sub, m, kk, n, i, j, kk))
  }

  function MmaRows<V>(a: seq<V>, b: seq<V>, c: Option<seq<V>>, sub: Shape, m: nat, kk: nat, n: nat): seq<seq<Acc<V>>>
    requires |a| == m * kk && |b| == kk * n && (c.Some? ==> |c.value| == m * n)
  {
    seq(m, i requires 0 <= i < m => MmaRow(a, b, c, sub, m, kk, n, i, n))
  }

  /**
   * What the pattern does with a `tile_mma`: it is rewritten exactly when both
   * operands are 4D and their block grids match (an error otherwise), to the
   * `M x N` result blocks row by row.
   */
  function MmaResult<V>(aShape: Shape, bShape: Shape, a: seq<V>, b: seq<V>, c: Option<seq<V>>): (r: Rewrite<seq<Acc<V>>>)
    requires MmaOperands(aShape, bShape, a, b, c)
    ensures r.Rewritten? <==> |aShape| == 4 && |bShape| == 4 && aShape[3] == bShape[2] && aShape[1] == bShape[0]
    ensures !r.Rewritten? ==> r == OpError(if |aShape| != 4 || |bShape| != 4 then RankError else SizeError)
  {
    if |aShape| != 4 || |bShape| != 4 then OpError(RankError)
    else if aShape[3] != bShape[2] || aShape[1] != bShape[0] then OpError(SizeError)
    else Rewritten(Flatten(MmaRows(a, b, c, [aShape[2], bShape[3]], aShape[0], aShape[1], bShape[1])))
  }

  /** `matchAndRewrite` of the `tile_mma` pattern. */
  method LowerTileMma<V>(aShape: Shape, bShape: Shape, a: seq<V>, b: seq<V>, c: Option<seq<V>>) returns (r: Rewrite<seq<Acc<V>>>)
    requires MmaOperands(aShape, bShape, a, b, c)
    ensures r == MmaResult(aShape, bShape, a, b, c)
  {
    if |aShape| != 4 || |bShape| != 4 {
      return OpError(RankError);
    }
    if aShape[3] != bShape[2] || aShape[1] != bShape[0] {
      return OpError(SizeError);
    }
    var m, kk, n := aShape[0], aShape[1], bShape[1];
    var subCTy := [aShape[2], bShape[3]];
    ghost var rows := MmaRows(a, b, c, subCTy, m, kk, n);
    var xegpuOps: seq<Acc<V>> := [];
    var i := 0;
    while i < m
      invariant i <= m && xegpuOps == Flatten(rows[..i])
    {
      var row := AccumulateRow(a, b, c, subCTy, m, kk, n, i);
      FlattenSnoc(rows, i);
      xegpuOps := xegpuOps + row;
      i := i + 1;
    }
    assert rows[..i] == rows;
    r := Rewritten(xegpuOps);
  }

  /** The j loop of row i: the result blocks of that row, in order. */
  method AccumulateRow<V>(a: seq<V>, b: seq<V>, c: Option<seq<V>>, subCTy: Shape, m: nat, kk: nat, n: nat, i: nat)
    returns (row: seq<Acc<V>>)
    requires |a| == m * kk && |b| == kk * n && (c.Some? ==> |c.value| == m * n) && i < m
    ensures row == MmaRow(a, b, c, subCTy, m, kk, n, i, n)
  {
    row := [];
    var j := 0;
    while j < n
      invariant j <= n && row == MmaRow(a, b, c, subCTy, m, kk, n, i, j)
    {
      var tmpC := Accumulate(a, b, c, subCTy, m, kk, n, i, j);
      assert MmaRow(a, b, c, subCTy, m, kk, n, i, j + 1) == MmaRow(a, b, c, subCTy, m, kk, n, i, j) + [tmpC];
      row := row + [tmpC];
      j := j + 1;
    }
  }

  /** The body of the (i, j) iteration: start from C's block, when there is a C, and chain the K `dpas` operations. */
  method Accumulate<V>(a: seq<V>, b: seq<V>, c: Option<seq<V>>, subCTy: Shape, m: nat, kk: nat, n: nat, i: nat, j: nat)
    returns (tmpC: Acc<V>)
    requires |a| == m * kk && |b| == kk * n && (c.Some? ==> |c.value| == m * n) && i < m && j < n
    ensures tmpC == Chain(a, b, Init(c, m, n, i, j), subCTy, m, kk, n, i, j, kk)
  {
    tmpC := NoAcc;
    if c.Some? {
      PosBound(i, j, m, n);
      tmpC := AccInput(c.value[i * n + j]);
    }
    var k := 0;
    while k < kk
      invariant k <= kk && tmpC == Chain(a, b, Init(c, m, n, i, j), subCTy, m, kk, n, i, j, k)
    {
      PosBound(i, k, m, kk);
      PosBound(k, j, kk, n);
      var aVec := a[i * kk + k];
      var bVec := b[k * n + j];
      tmpC := Dpas(subCTy, aVec, bVec, tmpC);
      k := k + 1;
    }
  }

  /**
   * A `tile_mma` whose operands pass the checks is lowered to `M * N` blocks
   * in row-major order; block (i, j) starts from block (i, j) of C (or from
   * nothing without C) and chains, for k = 0 .. K - 1, block `i * K + k` of A
   * with block `k * N + j` of B.
   */
  lemma MmaLayout<V>(aShape: Shape, bShape: Shape, a: seq<V>, b: seq<V>, c: Option<seq<V>>)
    requires MmaOperands(aShape, bShape, a, b, c)
    requires |aShape| == 4 && |bShape| == 4 && aShape[3] == bShape[2] && aShape[1] == bShape[0]
    ensures var r := MmaResult(aShape, bShape, a, b, c);
            var m, kk, n := aShape[0], aShape[1], bShape[1];
            r.Rewritten? && |r.ops| == m * n &&
            forall i, j :: 0 <= i < m && 0 <= j < n ==>
              Pos(i, j, n) < |r.ops| && ChainsOver(r.ops[Pos(i, j, n)], Init(c, m, n, i, j), a, b, kk, n, i, j)
  {
    var m, kk, n := aShape[0], aShape[1], bShape[1];
    var sub := [aShape[2], bShape[3]];
    var rows := MmaRows(a, b, c, sub, m, kk, n);
    assert Uniform(rows, n);
    FlattenUniformLength(rows, n);
    forall i, j | 0 <= i < m && 0 <= j < n
      ensures Pos(i, j, n) < |Flatten(rows)| && ChainsOver(Flatten(rows)[Pos(i, j, n)], Init(c, m, n, i, j), a, b, kk, n, i, j)
    {
      FlattenAt(rows, n, i, j);
      ChainOrder(a, b, Init(c, m, n, i, j), sub, m, kk, n, i, j, kk);
    }
  }
}

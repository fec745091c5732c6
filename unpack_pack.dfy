/**
 * The Unpack/Pack lowering (`SgTileUnpackPackOpPattern` in
 * lib/Conversion/XeTileToXeGPU/XeTileOpConversion.cpp). An unpack whose only
 * user is a pack re-blocks a grid of vectors: blocks are merged (`stack` on
 * dim 0, `concat` on dim 1) where the pack's blocks are larger and cut
 * (`vector.extract_strided_slice`) where they are smaller. Values are
 * symbolic: `Input(i)` is the i-th vector the unpack receives.
 */
module UnpackPack {
  import opened TileCommon

  datatype Vec =
    | Input(index: nat)
    | Stacked(top: Vec, bottom: Vec)
    | Concatenated(left: Vec, right: Vec)
    | Slice(source: Vec, offsets: seq<int>, sizes: seq<int>)
      /** the default value `resize` fills a vector of values with */
    | Null

  /** The merge `transform` is given: `stack` or `concat`. */
  datatype Merge = StackMerge | ConcatMerge

  function Merged(m: Merge, a: Vec, b: Vec): Vec
  {
    match m
    case StackMerge => Stacked(a, b)
    case ConcatMerge => Concatenated(a, b)
  }

  predicate MergedBy(m: Merge, v: Vec)
  {
    match m
    case StackMerge => v.Stacked?
    case ConcatMerge => v.Concatenated?
  }

  lemma HalfOfPowerOfTwo(n: nat)
    requires IsPowerOfTwo(n) && n > 1
    ensures n % 2 == 0 && n / 2 > 0 && IsPowerOfTwo(n / 2)
  {
  }

  lemma DoublePowerOfTwo(n: nat)
    requires IsPowerOfTwo(n)
    ensures IsPowerOfTwo(n + n)
  {
    assert (n + n) / 2 == n;
  }

  /** The balanced merge of `vs`: the first half merged with the second half. */
  function Tree(m: Merge, vs: seq<Vec>): Vec
    requires IsPowerOfTwo(|vs|)
    decreases |vs|
  {
    if |vs| == 1 then vs[0]
    else
      HalfOfPowerOfTwo(|vs|);
      Merged(m, Tree(m, vs[..|vs| / 2]), Tree(m, vs[|vs| / 2..]))
  }

  /** The blocks a value is built from, left to right, looking through merges of kind `m`. */
  function Leaves(m: Merge, v: Vec): seq<Vec>
  {
    match v
    case Stacked(a, b) => if m == StackMerge then Leaves(m, a) + Leaves(m, b) else [v]
    case Concatenated(a, b) => if m == ConcatMerge then Leaves(m, a) + Leaves(m, b) else [v]
    case _ => [v]
  }

  /** Merging blocks that are not themselves merges of that kind keeps every block, in order. */
  lemma {:induction false} TreeLeaves(m: Merge, vs: seq<Vec>)
    requires IsPowerOfTwo(|vs|)
    requires forall i :: 0 <= i < |vs| ==> !MergedBy(m, vs[i])
    ensures Leaves(m, Tree(m, vs)) == vs
    decreases |vs|
  {
    if |vs| == 1 {
      LeavesOfBlock(m, vs[0]);
    } else {
      HalfOfPowerOfTwo(|vs|);
      var h := |vs| / 2;
      var left, right := vs[..h], vs[h..];
      assert left + right == vs;
      TreeLeaves(m, left);
      TreeLeaves(m, right);
      TreeSplit(m, vs);
      LeavesOfMerged(m, Tree(m, left), Tree(m, right));
    }
  }

  lemma TreeSplit(m: Merge, vs: seq<Vec>)
    requires IsPowerOfTwo(|vs|) && |vs| > 1
    ensures IsPowerOfTwo(|vs| / 2) && IsPowerOfTwo(|vs| - |vs| / 2)
    ensures Tree(m, vs) == Merged(m, Tree(m, vs[..|vs| / 2]), Tree(m, vs[|vs| / 2..]))
  {
    HalfOfPowerOfTwo(|vs|);
  }

  lemma LeavesOfBlock(m: Merge, v: Vec)
    requires !MergedBy(m, v)
    ensures Leaves(m, v) == [v]
  {
  }

  lemma LeavesOfMerged(m: Merge, a: Vec, b: Vec)
    ensures Leaves(m, Merged(m, a, b)) == Leaves(m, a) + Leaves(m, b)
  {
  }

  /** One round of `transform`: the merges of the adjacent pairs (0, 1), (2, 3), ... */
  function Pairs(m: Merge, vs: seq<Vec>): (r: seq<Vec>)
    ensures |r| == |vs| / 2
  {
    seq(|vs| / 2, t requires 0 <= t < |vs| / 2 => Merged(m, vs[2 * t], vs[2 * t + 1]))
  }

  lemma PairsSplit(m: Merge, vs: seq<Vec>, h: nat)
    requires h % 2 == 0 && |vs| == h + h
    ensures Pairs(m, vs)[..h / 2] == Pairs(m, vs[..h])
    ensures Pairs(m, vs)[h / 2..] == Pairs(m, vs[h..])
  {
  }

  lemma TreeOfTwo(m: Merge, vs: seq<Vec>)
    requires |vs| == 2
    ensures IsPowerOfTwo(|vs|) && Tree(m, vs) == Merged(m, vs[0], vs[1])
  {
    assert IsPowerOfTwo(1);
  }

  /** A round of pairwise merges does not change the balanced merge of the whole. */
  lemma {:induction false} PairsKeepTree(m: Merge, vs: seq<Vec>)
    requires IsPowerOfTwo(|vs|) && |vs| > 1
    ensures IsPowerOfTwo(|Pairs(m, vs)|) && Tree(m, Pairs(m, vs)) == Tree(m, vs)
    decreases |vs|
  {
    HalfOfPowerOfTwo(|vs|);
    var h := |vs| / 2;
    var p := Pairs(m, vs);
    if h == 1 {
      TreeOfTwo(m, vs);
    } else {
      HalfOfPowerOfTwo(h);
      PairsKeepTree(m, vs[..h]);
      PairsKeepTree(m, vs[h..]);
      PairsSplit(m, vs, h);
      assert Tree(m, p) == Merged(m, Tree(m, p[..h / 2]), Tree(m, p[h / 2..]));
    }
  }

  /**
   * The `transform` lambda: merges adjacent pairs, round after round, until
   * one value is left; every round must hold an even number of values.
   */
  method Transform(ins: seq<Vec>, m: Merge) returns (r: Vec)
    requires IsPowerOfTwo(|ins|)
    ensures r == Tree(m, ins)
  {
    var shuffleOps := ins;
    while |shuffleOps| > 1
      invariant IsPowerOfTwo(|shuffleOps|) && Tree(m, shuffleOps) == Tree(m, ins)
      decreases |shuffleOps|
    {
      var curr := shuffleOps;
      HalfOfPowerOfTwo(|curr|);
      assert |curr| % 2 == 0;
      shuffleOps := [];
      var i := 0;
      while i + 1 < |curr|
        invariant i <= |curr| && i == 2 * |shuffleOps|
        invariant shuffleOps == Pairs(m, curr)[..|shuffleOps|]
      {
        var newOp := Merged(m, curr[i], curr[i + 1]);
        shuffleOps := shuffleOps + [newOp];
        i := i + 2;
      }
      assert shuffleOps == Pairs(m, curr);
      PairsKeepTree(m, curr);
    }
    r := shuffleOps[0];
  }

  /**
   * The `nums` blocks of column j that block row t of the result stacks, top
   * to bottom: rows t * nums .. t * nums + nums - 1 of a row-major
   * `g0 x g1` grid.
   */
  function ColumnRun(inputs: seq<Vec>, g0: nat, g1: nat, nums: nat, t: nat, j: nat): (r: seq<Vec>)
    requires |inputs| == g0 * g1 && j < g1 && Pos(t + 1, 0, nums) <= g0
    ensures |r| == nums
  {
    seq(nums, k requires 0 <= k < nums =>
      PosBound(Pos(t, k, nums), j, g0, g1);
      inputs[Pos(Pos(t, k, nums), j, g1)])
  }

  predicate StackGrid(g0: nat, nums: nat)
  {
    nums > 0 && g0 % nums == 0 && IsPowerOfTwo(nums)
  }

  lemma StackRowBound(g0: nat, nums: nat, t: nat)
    requires StackGrid(g0, nums) && t < g0 / nums
    ensures Pos(t + 1, 0, nums) <= g0
  {
    MulMonotone(t + 1, g0 / nums, nums);
  }

  /** Stacking on dim 0: block (t, j) of the result is the stack of column run (t, j). */
  function StackedGrid(inputs: seq<Vec>, g0: nat, g1: nat, nums: nat): (r: seq<Vec>)
    requires |inputs| == g0 * g1 && StackGrid(g0, nums)
    ensures |r| == Pos(g0 / nums, 0, g1)
  {
    seq(Pos(g0 / nums, 0, g1), p requires 0 <= p < Pos(g0 / nums, 0, g1) =>
      PosSplit(p, g0 / nums, g1);
      StackRowBound(g0, nums, p / g1);
      Tree(StackMerge, ColumnRun(inputs, g0, g1, nums, p / g1, p % g1)))
  }

  /** Block (t, j) of the stacked grid holds the blocks of its column run, in order. */
  lemma StackedLayout(inputs: seq<Vec>, g0: nat, g1: nat, nums: nat, t: nat, j: nat)
    requires |inputs| == g0 * g1 && StackGrid(g0, nums)
    requires forall i :: 0 <= i < |inputs| ==> !inputs[i].Stacked?
    requires t < g0 / nums && j < g1
    ensures Pos(t, j, g1) < |StackedGrid(inputs, g0, g1, nums)|
    ensures Pos(t + 1, 0, nums) <= g0
    ensures Leaves(StackMerge, StackedGrid(inputs, g0, g1, nums)[Pos(t, j, g1)]) == ColumnRun(inputs, g0, g1, nums, t, j)
  {
    StackRowBound(g0, nums, t);
    PosBound(t, j, g0 / nums, g1);
    PosDivMod(t, j, g1);
    var run := ColumnRun(inputs, g0, g1, nums, t, j);
    forall k | 0 <= k < nums
      ensures !MergedBy(StackMerge, run[k])
    {
      PosBound(Pos(t, k, nums), j, g0, g1);
    }
    TreeLeaves(StackMerge, run);
  }

  /** Facts about band t of the stacked grid while the band loop visits it. */
  lemma StackBand(g0: nat, g1: nat, nums: nat, t: nat)
    requires StackGrid(g0, nums) && Pos(t, 0, nums) < g0
    ensures t < g0 / nums && Pos(t, 0, nums) + nums == Pos(t + 1, 0, nums) <= g0
    ensures Pos(t, 0, g1) + g1 == Pos(t + 1, 0, g1) <= Pos(g0 / nums, 0, g1)
  {
    if t >= g0 / nums {
      MulMonotone(g0 / nums, t, nums);
      assert false;
    }
    StackRowBound(g0, nums, t);
    RowEndBound(t, g0 / nums, g1);
  }

  lemma StackedGridAt(inputs: seq<Vec>, g0: nat, g1: nat, nums: nat, t: nat, j: nat)
    requires |inputs| == g0 * g1 && StackGrid(g0, nums) && t < g0 / nums && j < g1
    ensures Pos(t + 1, 0, nums) <= g0 && Pos(t, j, g1) < |StackedGrid(inputs, g0, g1, nums)|
    ensures StackedGrid(inputs, g0, g1, nums)[Pos(t, j, g1)] == Tree(StackMerge, ColumnRun(inputs, g0, g1, nums, t, j))
  {
    StackRowBound(g0, nums, t);
    PosBound(t, j, g0 / nums, g1);
    PosDivMod(t, j, g1);
  }

  /**
   * Stacking on dim 0 as intended (the second loop of the stack branch): for
   * each band of `nums` block rows and each column, the band's blocks of that
   * column are gathered top to bottom and merged with `transform`.
   */
  method StackRows(inputs: seq<Vec>, g0: nat, g1: nat, nums: nat) returns (r: seq<Vec>)
    requires |inputs| == g0 * g1 && StackGrid(g0, nums)
    ensures r == StackedGrid(inputs, g0, g1, nums)
  {
    ghost var spec := StackedGrid(inputs, g0, g1, nums);
    r := [];
    var i := 0;
    ghost var t := 0;
    while i < g0
      invariant i == Pos(t, 0, nums) <= g0 && t <= g0 / nums
      invariant |r| == Pos(t, 0, g1) <= |spec| && r == spec[..|r|]
    {
      StackBand(g0, g1, nums, t);
      var j := 0;
      while j < g1
        invariant j <= g1 && |r| == Pos(t, j, g1) <= |spec| && r == spec[..|r|]
      {
        var values := [];
        var k := 0;
        while k < nums
          invariant k <= nums && |values| == k
          invariant forall k' :: 0 <= k' < k ==> Pos(Pos(t, k', nums), j, g1) < |inputs| && values[k'] == inputs[Pos(Pos(t, k', nums), j, g1)]
        {
          PosBound(Pos(t, k, nums), j, g0, g1);
          var idx := Pos(i + k, j, g1);
          values := values + [inputs[idx]];
          k := k + 1;
        }
        assert values == ColumnRun(inputs, g0, g1, nums, t, j);
        var newOp := Transform(values, StackMerge);
        StackedGridAt(inputs, g0, g1, nums, t, j);
        assert spec[..|r| + 1] == spec[..|r|] + [newOp];
        r := r + [newOp];
        j := j + 1;
      }
      i := i + nums;
      t := t + 1;
    }
    assert t == g0 / nums by {
      PosDivMod(t, 0, nums);
    }
  }

  /**
   * The first loop of the stack branch as written: columns outer, rows inner;
   * the gathered blocks are handed to `transform` whenever the row index is a
   * non-zero multiple of `nums`. The gathered set is not emptied between
   * columns and the last set is never handed on. The result lists the sets
   * handed to `transform`, in order: those already handed on, then new ones
   * made only of gathered blocks.
   */
  function StackFirstLoop(inputs: seq<Vec>, g0: nat, g1: nat, nums: nat, j: nat, i: nat,
                          valSet: seq<Vec>, merged: seq<seq<Vec>>): (r: seq<seq<Vec>>)
    requires |inputs| == g0 * g1 && nums > 0 && j <= g1 && i <= g0
    ensures |merged| <= |r| && r[..|merged|] == merged
    ensures forall k :: |merged| <= k < |r| ==> forall v :: v in r[k] ==> v in valSet || v in inputs
    decreases g1 - j, g0 - i
  {
    if j == g1 then merged
    else if i == g0 then StackFirstLoop(inputs, g0, g1, nums, j + 1, 0, valSet, merged)
    else
      var flush := i != 0 && i % nums == 0;
      var merged' := if flush then merged + [valSet] else merged;
      var valSet' := if flush then [] else valSet;
      PosBound(i, j, g0, g1);
      StackFirstLoop(inputs, g0, g1, nums, j, i + 1, valSet' + [inputs[Pos(i, j, g1)]], merged')
  }

  /**
   * The stack branch as written: the merges of the first loop, followed by
   * what the second loop emits. Each set the first loop merges must hold a
   * power of two of blocks (the assertion in `transform`).
   */
  function StackOnDim0AsWritten(inputs: seq<Vec>, g0: nat, g1: nat, nums: nat): (r: seq<Vec>)
    requires |inputs| == g0 * g1 && StackGrid(g0, nums)
    requires var sets := StackFirstLoop(inputs, g0, g1, nums, 0, 0, [], []);
             forall k :: 0 <= k < |sets| ==> IsPowerOfTwo(|sets[k]|)
    ensures var grid := StackedGrid(inputs, g0, g1, nums);
            |grid| <= |r| && r[|r| - |grid|..] == grid
    ensures |r| == |StackedGrid(inputs, g0, g1, nums)| <==> StackFirstLoop(inputs, g0, g1, nums, 0, 0, [], []) == []
  {
    var sets := StackFirstLoop(inputs, g0, g1, nums, 0, 0, [], []);
    seq(|sets|, k requires 0 <= k < |sets| => Tree(StackMerge, sets[k])) + StackedGrid(inputs, g0, g1, nums)
  }

  lemma StackFirstLoopOnFourBlocks()
    ensures StackFirstLoop([Input(0), Input(1), Input(2), Input(3)], 4, 1, 2, 0, 0, [], []) == [[Input(0), Input(1)]]
  {
    var inputs := [Input(0), Input(1), Input(2), Input(3)];
    calc {
      StackFirstLoop(inputs, 4, 1, 2, 0, 0, [], []);
      { assert [] + [inputs[Pos(0, 0, 1)]] == [Input(0)]; }
      StackFirstLoop(inputs, 4, 1, 2, 0, 1, [Input(0)], []);
      { assert [Input(0)] + [inputs[Pos(1, 0, 1)]] == [Input(0), Input(1)]; }
      StackFirstLoop(inputs, 4, 1, 2, 0, 2, [Input(0), Input(1)], []);
      { assert [] + [inputs[Pos(2, 0, 1)]] == [Input(2)]; }
      StackFirstLoop(inputs, 4, 1, 2, 0, 3, [Input(2)], [[Input(0), Input(1)]]);
      { assert 3 % 2 == 1 && [Input(2)] + [inputs[Pos(3, 0, 1)]] == [Input(2), Input(3)]; }
      StackFirstLoop(inputs, 4, 1, 2, 0, 4, [Input(2), Input(3)], [[Input(0), Input(1)]]);
      StackFirstLoop(inputs, 4, 1, 2, 1, 0, [Input(2), Input(3)], [[Input(0), Input(1)]]);
      [[Input(0), Input(1)]];
    }
  }

  /**
   * Four blocks in one column stacked pairwise: the branch as written hands
   * on three values where the pack expects two, and the second is a copy of
   * the first instead of the stack of the last two blocks.
   */
  lemma StackOnDim0AsWrittenEmitsExtra()
    ensures var inputs := [Input(0), Input(1), Input(2), Input(3)];
            StackGrid(4, 2) &&
            StackFirstLoop(inputs, 4, 1, 2, 0, 0, [], []) == [[Input(0), Input(1)]] &&
            StackOnDim0AsWritten(inputs, 4, 1, 2) ==
              [Stacked(Input(0), Input(1)), Stacked(Input(0), Input(1)), Stacked(Input(2), Input(3))] &&
            StackedGrid(inputs, 4, 1, 2) == [Stacked(Input(0), Input(1)), Stacked(Input(2), Input(3))]
  {
    var inputs := [Input(0), Input(1), Input(2), Input(3)];
    TreeOfTwo(StackMerge, [Input(0), Input(1)]);
    TreeOfTwo(StackMerge, [Input(2), Input(3)]);
    StackFirstLoopOnFourBlocks();
    var grid := StackedGrid(inputs, 4, 1, 2);
    assert |grid| == 2;
    StackedGridAt(inputs, 4, 1, 2, 0, 0);
    StackedGridAt(inputs, 4, 1, 2, 1, 0);
    assert ColumnRun(inputs, 4, 1, 2, 0, 0) == [Input(0), Input(1)];
    assert ColumnRun(inputs, 4, 1, 2, 1, 0) == [Input(2), Input(3)];
  }

  /** Piece k of a block cut into horizontal slices of `blk[0]` rows: `extract_strided_slice` at offsets (k * blk[0], 0). */
  function RowPiece(v: Vec, k: nat, blk: seq<int>): Vec
    requires |blk| == 2
  {
    Slice(v, [k * blk[0], 0], blk)
  }

  function InputRowPiece(inputs: seq<Vec>, g0: nat, g1: nat, blk: seq<int>, i: nat, j: nat, k: nat): Vec
    requires |inputs| == g0 * g1 && |blk| == 2 && i < g0 && j < g1
  {
    PosBound(i, j, g0, g1);
    RowPiece(inputs[Pos(i, j, g1)], k, blk)
  }

  /**
   * Extraction on dim 0: output block (row, j) is piece `row % nums` of input
   * block (row / nums, j); rows past `g0In * nums` keep the default value.
   */
  function ExtractedRowsAt(inputs: seq<Vec>, g0In: nat, g1: nat, nums: nat, blk: seq<int>, row: nat, j: nat): Vec
    requires |inputs| == g0In * g1 && |blk| == 2 && j < g1
  {
    if row < Pos(g0In, 0, nums) then
      PosSplit(row, g0In, nums);
      InputRowPiece(inputs, g0In, g1, blk, row / nums, j, row % nums)
    else Null
  }

  function ExtractedRows(inputs: seq<Vec>, g0In: nat, g1: nat, g0Out: nat, blk: seq<int>): (r: seq<Vec>)
    requires |inputs| == g0In * g1 && g0In > 0 && |blk| == 2
    ensures |r| == Pos(g0Out, 0, g1)
  {
    seq(Pos(g0Out, 0, g1), p requires 0 <= p < Pos(g0Out, 0, g1) =>
      PosSplit(p, g0Out, g1);
      ExtractedRowsAt(inputs, g0In, g1, g0Out / g0In, blk, p / g1, p % g1))
  }

  /** The slices of the iterations before the n-th of the (i, j, k) loops are in place. */
  ghost predicate RowPiecesWritten(s: seq<Vec>, inputs: seq<Vec>, g0In: nat, g1: nat, nums: nat, blk: seq<int>, n: nat)
    requires |inputs| == g0In * g1 && |blk| == 2
  {
    forall i, j, k :: 0 <= i < g0In && 0 <= j < g1 && 0 <= k < nums && Pos(Pos(i, j, g1), k, nums) < n ==>
      Pos(Pos(i, k, nums), j, g1) < |s| && s[Pos(Pos(i, k, nums), j, g1)] == InputRowPiece(inputs, g0In, g1, blk, i, j, k)
  }

  ghost predicate NullFrom(s: seq<Vec>, bound: nat)
  {
    forall p :: bound <= p < |s| ==> s[p] == Null
  }

  /** Iteration n writes slice k of block (i, j) to `startPos + k * g1` and disturbs no earlier write. */
  lemma RowPieceStep(before: seq<Vec>, after: seq<Vec>, inputs: seq<Vec>, g0In: nat, g1: nat, nums: nat, blk: seq<int>,
                     i: nat, j: nat, k: nat, n: nat)
    requires |inputs| == g0In * g1 && |blk| == 2 && i < g0In && j < g1 && k < nums
    requires n == Pos(Pos(i, j, g1), k, nums) && Pos(Pos(i, k, nums), j, g1) < |before|
    requires RowPiecesWritten(before, inputs, g0In, g1, nums, blk, n)
    requires NullFrom(before, Pos(Pos(g0In, 0, nums), 0, g1))
    requires after == before[Pos(Pos(i, k, nums), j, g1) := InputRowPiece(inputs, g0In, g1, blk, i, j, k)]
    ensures RowPiecesWritten(after, inputs, g0In, g1, nums, blk, n + 1)
    ensures NullFrom(after, Pos(Pos(g0In, 0, nums), 0, g1))
  {
    var idx := Pos(Pos(i, k, nums), j, g1);
    PosBound(i, k, g0In, nums);
    PosBound(Pos(i, k, nums), j, Pos(g0In, 0, nums), g1);
    forall i', j', k' | 0 <= i' < g0In && 0 <= j' < g1 && 0 <= k' < nums && Pos(Pos(i', j', g1), k', nums) < n + 1
      ensures Pos(Pos(i', k', nums), j', g1) < |after| &&
              after[Pos(Pos(i', k', nums), j', g1)] == InputRowPiece(inputs, g0In, g1, blk, i', j', k')
    {
      if Pos(Pos(i', j', g1), k', nums) == n {
        PosInjective(Pos(i', j', g1), k', Pos(i, j, g1), k, nums);
        PosInjective(i', j', i, j, g1);
      } else if Pos(Pos(i', k', nums), j', g1) == idx {
        PosInjective(Pos(i', k', nums), j', Pos(i, k, nums), j, g1);
        PosInjective(i', k', i, k, nums);
        assert false;
      }
    }
  }

  /** Once every iteration has run, the array holds exactly the dim-0 extraction. */
  lemma RowPiecesComplete(s: seq<Vec>, inputs: seq<Vec>, g0In: nat, g1: nat, g0Out: nat, blk: seq<int>)
    requires |inputs| == g0In * g1 && g0In > 0 && |blk| == 2 && |s| == Pos(g0Out, 0, g1)
    requires RowPiecesWritten(s, inputs, g0In, g1, g0Out / g0In, blk, Pos(Pos(g0In, 0, g1), 0, g0Out / g0In))
    requires NullFrom(s, Pos(Pos(g0In, 0, g0Out / g0In), 0, g1))
    ensures s == ExtractedRows(inputs, g0In, g1, g0Out, blk)
  {
    var spec := ExtractedRows(inputs, g0In, g1, g0Out, blk);
    forall p | 0 <= p < |s|
      ensures s[p] == spec[p]
    {
      PosSplit(p, g0Out, g1);
      RowPieceAt(s, inputs, g0In, g1, g0Out, g0Out / g0In, blk, p / g1, p % g1);
    }
  }

  lemma RowPieceAt(s: seq<Vec>, inputs: seq<Vec>, g0In: nat, g1: nat, g0Out: nat, nums: nat, blk: seq<int>, row: nat, j: nat)
    requires |inputs| == g0In * g1 && g0In > 0 && |blk| == 2 && |s| == Pos(g0Out, 0, g1) && row < g0Out && j < g1
    requires nums == g0Out / g0In
    requires RowPiecesWritten(s, inputs, g0In, g1, nums, blk, Pos(Pos(g0In, 0, g1), 0, nums))
    requires NullFrom(s, Pos(Pos(g0In, 0, nums), 0, g1))
    ensures Pos(row, j, g1) < |s| && s[Pos(row, j, g1)] == ExtractedRows(inputs, g0In, g1, g0Out, blk)[Pos(row, j, g1)]
  {
    ExtractedRowsIndex(inputs, g0In, g1, g0Out, nums, blk, row, j);
    if row < Pos(g0In, 0, nums) {
      PosSplit(row, g0In, nums);
      var i, k := row / nums, row % nums;
      ExtractedRowsAtInside(inputs, g0In, g1, nums, blk, i, j, k);
      RowPieceInside(s, inputs, g0In, g1, nums, blk, i, j, k);
    } else {
      RowPieceOutside(s, g0In, g1, nums, row, j);
    }
  }

  lemma ExtractedRowsAtInside(inputs: seq<Vec>, g0In: nat, g1: nat, nums: nat, blk: seq<int>, i: nat, j: nat, k: nat)
    requires |inputs| == g0In * g1 && |blk| == 2 && i < g0In && j < g1 && k < nums
    ensures ExtractedRowsAt(inputs, g0In, g1, nums, blk, Pos(i, k, nums), j) == InputRowPiece(inputs, g0In, g1, blk, i, j, k)
  {
    PosBound(i, k, g0In, nums);
    PosDivMod(i, k, nums);
  }

  lemma ExtractedRowsIndex(inputs: seq<Vec>, g0In: nat, g1: nat, g0Out: nat, nums: nat, blk: seq<int>, row: nat, j: nat)
    requires |inputs| == g0In * g1 && g0In > 0 && |blk| == 2 && row < g0Out && j < g1 && nums == g0Out / g0In
    ensures Pos(row, j, g1) < Pos(g0Out, 0, g1)
    ensures ExtractedRows(inputs, g0In, g1, g0Out, blk)[Pos(row, j, g1)] == ExtractedRowsAt(inputs, g0In, g1, nums, blk, row, j)
  {
    PosBound(row, j, g0Out, g1);
    PosDivMod(row, j, g1);
  }

  lemma RowPieceInside(s: seq<Vec>, inputs: seq<Vec>, g0In: nat, g1: nat, nums: nat, blk: seq<int>, i: nat, j: nat, k: nat)
    requires |inputs| == g0In * g1 && |blk| == 2 && i < g0In && j < g1 && k < nums
    requires RowPiecesWritten(s, inputs, g0In, g1, nums, blk, Pos(Pos(g0In, 0, g1), 0, nums))
    ensures Pos(Pos(i, k, nums), j, g1) < |s| && s[Pos(Pos(i, k, nums), j, g1)] == InputRowPiece(inputs, g0In, g1, blk, i, j, k)
  {
    PosBound(i, j, g0In, g1);
    PosBound(Pos(i, j, g1), k, Pos(g0In, 0, g1), nums);
  }

  lemma RowPieceOutside(s: seq<Vec>, g0In: nat, g1: nat, nums: nat, row: nat, j: nat)
    requires Pos(g0In, 0, nums) <= row && Pos(row, j, g1) < |s|
    requires NullFrom(s, Pos(Pos(g0In, 0, nums), 0, g1))
    ensures s[Pos(row, j, g1)] == Null
  {
    MulMonotone(Pos(g0In, 0, nums), row, g1);
  }

  lemma RowPieceIndex(i: nat, j: nat, k: nat, nums: nat, g0In: nat, g1: nat, g0Out: nat)
    requires i < g0In && j < g1 && k < nums && nums == g0Out / g0In
    ensures i * nums * g1 + j + k * g1 == Pos(Pos(i, k, nums), j, g1) < Pos(g0Out, 0, g1)
  {
    PosBound(i, k, g0In, nums);
    assert Pos(g0In, 0, nums) <= g0Out;
    PosBound(Pos(i, k, nums), j, g0Out, g1);
  }

  lemma RowPieceCount(i: nat, j: nat, k: nat, nums: nat, g1: nat)
    ensures Pos(Pos(i, j, g1), nums, nums) == Pos(Pos(i, j + 1, g1), 0, nums)
    ensures Pos(Pos(i, g1, g1), 0, nums) == Pos(Pos(i + 1, 0, g1), 0, nums)
  {
    NextRow(Pos(i, j, g1), nums);
    NextRow(i, g1);
  }

  /**
   * Extraction on dim 0: the intermediate values are resized to
   * `g0Out * g1` and every input block is cut into `nums = g0Out / g0In`
   * horizontal slices, slice k of block (i, j) going to block row
   * `i * nums + k` of column j.
   */
  method ExtractRows(inputs: seq<Vec>, g0In: nat, g1: nat, g0Out: nat, blk: seq<int>) returns (r: seq<Vec>)
    requires |inputs| == g0In * g1 && g0In > 0 && |blk| == 2
    ensures r == ExtractedRows(inputs, g0In, g1, g0Out, blk)
  {
    var intermediates := new Vec[g0Out * g1](_ => Null);
    var nums := g0Out / g0In;
    ghost var bound := Pos(Pos(g0In, 0, nums), 0, g1);
    ghost var n := 0;
    var i := 0;
    while i < g0In
      invariant i <= g0In && n == Pos(Pos(i, 0, g1), 0, nums)
      invariant RowPiecesWritten(intermediates[..], inputs, g0In, g1, nums, blk, n)
      invariant NullFrom(intermediates[..], bound)
    {
      var j := 0;
      while j < g1
        invariant j <= g1 && n == Pos(Pos(i, j, g1), 0, nums)
        invariant RowPiecesWritten(intermediates[..], inputs, g0In, g1, nums, blk, n)
        invariant NullFrom(intermediates[..], bound)
      {
        PosBound(i, j, g0In, g1);
        var startPos := i * nums * g1 + j;
        var v := inputs[i * g1 + j];
        var k := 0;
        while k < nums
          invariant k <= nums && n == Pos(Pos(i, j, g1), k, nums)
          invariant RowPiecesWritten(intermediates[..], inputs, g0In, g1, nums, blk, n)
          invariant NullFrom(intermediates[..], bound)
        {
          var offsets := [k * blk[0], 0];
          RowPieceIndex(i, j, k, nums, g0In, g1, g0Out);
          var idx := startPos + k * g1;
          ghost var before := intermediates[..];
          intermediates[idx] := Slice(v, offsets, blk);
          RowPieceStep(before, intermediates[..], inputs, g0In, g1, nums, blk, i, j, k, n);
          k := k + 1;
          n := n + 1;
        }
        RowPieceCount(i, j, k, nums, g1);
        j := j + 1;
      }
      RowPieceCount(i, j, 0, nums, g1);
      i := i + 1;
    }
    r := intermediates[..];
    RowPiecesComplete(r, inputs, g0In, g1, g0Out, blk);
  }

  /** When the output grid is a whole multiple of the input's, every output block is filled. */
  lemma ExtractedRowsFilled(inputs: seq<Vec>, g0In: nat, g1: nat, g0Out: nat, blk: seq<int>)
    requires |inputs| == g0In * g1 && g0In > 0 && |blk| == 2 && g0Out % g0In == 0
    ensures forall p :: 0 <= p < |ExtractedRows(inputs, g0In, g1, g0Out, blk)| ==>
              ExtractedRows(inputs, g0In, g1, g0Out, blk)[p].Slice?
  {
    var nums := g0Out / g0In;
    assert Pos(g0In, 0, nums) == g0Out;
    forall p | 0 <= p < |ExtractedRows(inputs, g0In, g1, g0Out, blk)|
      ensures ExtractedRows(inputs, g0In, g1, g0Out, blk)[p].Slice?
    {
      PosSplit(p, g0Out, g1);
    }
  }

  /**
   * Concatenation on dim 1: consecutive runs of `nums` values, in row-major
   * order, each merged by a balanced tree of concatenations; a trailing run
   * shorter than `nums` is dropped, and so is everything when `nums` is 0.
   */
  function ConcatGroups(xs: seq<Vec>, nums: nat): seq<Vec>
    requires nums == 0 || IsPowerOfTwo(nums)
    decreases |xs|
  {
    if nums == 0 || |xs| < nums then [] else [Tree(ConcatMerge, xs[..nums])] + ConcatGroups(xs[nums..], nums)
  }

  /** Every run of `nums` values but a shorter tail becomes one group. */
  lemma {:induction false} ConcatGroupsLength(xs: seq<Vec>, nums: nat)
    requires IsPowerOfTwo(nums)
    ensures Pos(|ConcatGroups(xs, nums)|, 0, nums) <= |xs| < Pos(|ConcatGroups(xs, nums)| + 1, 0, nums)
    ensures |ConcatGroups(xs, nums)| == |xs| / nums
    decreases |xs|
  {
    var n := |ConcatGroups(xs, nums)|;
    if |xs| >= nums {
      ConcatGroupsLength(xs[nums..], nums);
      NextRow(n - 1, nums);
      NextRow(n, nums);
    }
    PosDivMod(n, |xs| - Pos(n, 0, nums), nums);
  }

  /** Leaf by leaf, group t is the t-th run of `nums` values. */
  lemma ConcatGroupsAt(xs: seq<Vec>, nums: nat, t: nat)
    requires IsPowerOfTwo(nums) && forall i :: 0 <= i < |xs| ==> !xs[i].Concatenated?
    requires t < |ConcatGroups(xs, nums)|
    ensures Pos(t, 0, nums) + nums == Pos(t + 1, 0, nums) <= |xs|
    ensures Leaves(ConcatMerge, ConcatGroups(xs, nums)[t]) == xs[Pos(t, 0, nums)..Pos(t + 1, 0, nums)]
  {
    ConcatGroupsRun(xs, nums, t);
    NextRow(t, nums);
    RunLeaves(xs, nums, Pos(t, 0, nums), Pos(t + 1, 0, nums));
  }

  /** Group t is the tree over the t-th run of `nums` values. */
  lemma {:induction false} ConcatGroupsRun(xs: seq<Vec>, nums: nat, t: nat)
    requires IsPowerOfTwo(nums) && t < |ConcatGroups(xs, nums)|
    ensures Pos(t, 0, nums) + nums == Pos(t + 1, 0, nums) <= |xs|
    ensures ConcatGroups(xs, nums)[t] == Tree(ConcatMerge, xs[Pos(t, 0, nums)..Pos(t + 1, 0, nums)])
    decreases t
  {
    NextRow(t, nums);
    ConcatGroupsTail(xs, nums, t);
    if t > 0 {
      ConcatGroupsRun(xs[nums..], nums, t - 1);
      ShiftedGroup(xs, nums, t);
    }
  }

  /** A run of `nums` values none of which is a concatenation: the tree over it has exactly those leaves. */
  lemma RunLeaves(xs: seq<Vec>, nums: nat, lo: nat, hi: nat)
    requires IsPowerOfTwo(nums) && lo <= hi <= |xs| && hi - lo == nums
    requires forall i :: 0 <= i < |xs| ==> !xs[i].Concatenated?
    ensures Leaves(ConcatMerge, Tree(ConcatMerge, xs[lo..hi])) == xs[lo..hi]
  {
    var run := xs[lo..hi];
    forall i | 0 <= i < nums
      ensures !MergedBy(ConcatMerge, run[i])
    {
      assert run[i] == xs[lo + i];
    }
    TreeLeaves(ConcatMerge, run);
  }

  /** The first group is the tree over the first run; after it come the groups of the remaining values. */
  lemma ConcatGroupsTail(xs: seq<Vec>, nums: nat, t: nat)
    requires IsPowerOfTwo(nums) && t < |ConcatGroups(xs, nums)|
    ensures nums <= |xs|
    ensures ConcatGroups(xs, nums) == [Tree(ConcatMerge, xs[..nums])] + ConcatGroups(xs[nums..], nums)
  {
  }

  /** Run t - 1 of the values after the first run is run t of all of them. */
  lemma ShiftedGroup(xs: seq<Vec>, nums: nat, t: nat)
    requires 0 < t && nums <= |xs| && Pos(t + 1, 0, nums) <= |xs|
    ensures Pos(t, 0, nums) <= |xs[nums..]|
    ensures xs[nums..][Pos(t - 1, 0, nums)..Pos(t, 0, nums)] == xs[Pos(t, 0, nums)..Pos(t + 1, 0, nums)]
  {
    NextRow(t - 1, nums);
    NextRow(t, nums);
  }

  /**
   * State of the concatenation loop after the first p values: the emitted
   * groups followed by the groups of what starts with the partial group in
   * `valSet` are all the groups.
   */
  ghost predicate ConcatProgress(xs: seq<Vec>, nums: nat, newOps: seq<Vec>, valSet: seq<Vec>, p: nat)
  {
    (nums == 0 || IsPowerOfTwo(nums)) &&
    |valSet| <= p <= |xs| && valSet == xs[p - |valSet|..p] &&
    (nums > 0 ==> |valSet| < nums) &&
    newOps + ConcatGroups(xs[p - |valSet|..], nums) == ConcatGroups(xs, nums)
  }

  /** Pushing value p either completes the current group, which is then merged and emitted, or extends it. */
  lemma ConcatStep(xs: seq<Vec>, nums: nat, newOps: seq<Vec>, valSet: seq<Vec>, p: nat)
    requires ConcatProgress(xs, nums, newOps, valSet, p) && p < |xs|
    ensures var vs := valSet + [xs[p]];
            if |vs| == nums then IsPowerOfTwo(|vs|) && ConcatProgress(xs, nums, newOps + [Tree(ConcatMerge, vs)], [], p + 1)
            else ConcatProgress(xs, nums, newOps, vs, p + 1)
  {
    var q := p - |valSet|;
    var vs := valSet + [xs[p]];
    assert vs == xs[q..p + 1];
    if |vs| == nums {
      var tail := xs[q..];
      assert tail[..nums] == vs;
      assert tail[nums..] == xs[p + 1..];
    }
  }

  /** When every value is consumed, the emitted groups are exactly the concatenation groups. */
  lemma ConcatDone(xs: seq<Vec>, nums: nat, newOps: seq<Vec>, valSet: seq<Vec>)
    requires ConcatProgress(xs, nums, newOps, valSet, |xs|)
    ensures newOps == ConcatGroups(xs, nums)
  {
    assert ConcatGroups(xs[|xs| - |valSet|..], nums) == [];
  }

  /** One step of the concatenation loop: push x, and merge and emit the set once it holds `nums` values. */
  method ConcatPush(ghost xs: seq<Vec>, nums: nat, newOps: seq<Vec>, valSet: seq<Vec>, ghost p: nat, x: Vec)
    returns (newOps': seq<Vec>, valSet': seq<Vec>)
    requires ConcatProgress(xs, nums, newOps, valSet, p) && p < |xs| && x == xs[p]
    ensures ConcatProgress(xs, nums, newOps', valSet', p + 1)
  {
    ConcatStep(xs, nums, newOps, valSet, p);
    valSet' := valSet + [x];
    newOps' := newOps;
    if |valSet'| == nums {
      var newOp := Transform(valSet', ConcatMerge);
      newOps' := newOps + [newOp];
      valSet' := [];
    }
  }

  /**
   * Concatenation on dim 1: the intermediate values of the `g0` x `g1`
   * grid are visited row by row and every `nums` consecutive ones are
   * merged by `transform` with `concat`.
   */
  method ConcatColumns(intermediates: seq<Vec>, g0: nat, g1: nat, nums: nat) returns (r: seq<Vec>)
    requires Pos(g0, 0, g1) <= |intermediates| && (nums == 0 || IsPowerOfTwo(nums))
    ensures r == ConcatGroups(intermediates[..Pos(g0, 0, g1)], nums)
  {
    ghost var xs := intermediates[..Pos(g0, 0, g1)];
    var newOps: seq<Vec> := [];
    var valSet: seq<Vec> := [];
    assert xs[0..] == xs;
    ghost var p := 0;
    var i := 0;
    while i < g0
      invariant i <= g0 && p == Pos(i, 0, g1) && ConcatProgress(xs, nums, newOps, valSet, p)
    {
      var j := 0;
      while j < g1
        invariant j <= g1 && p == Pos(i, j, g1) && ConcatProgress(xs, nums, newOps, valSet, p)
      {
        PosBound(i, j, g0, g1);
        newOps, valSet := ConcatPush(xs, nums, newOps, valSet, p, intermediates[i * g1 + j]);
        j := j + 1;
        p := p + 1;
      }
      NextRow(i, g1);
      i := i + 1;
    }
    ConcatDone(xs, nums, newOps, valSet);
    r := newOps;
  }

  /** Piece k of a block cut into vertical slices of `blk[1]` columns: `extract_strided_slice` at offsets (0, k * blk[1]). */
  function ColumnPiece(v: Vec, k: nat, blk: seq<int>): Vec
    requires |blk| == 2
  {
    Slice(v, [0, k * blk[1]], blk)
  }

  /** The first n vertical pieces of v, left to right. */
  function PiecesOf(v: Vec, n: nat, blk: seq<int>): (r: seq<Vec>)
    requires |blk| == 2
    ensures |r| == n
  {
    seq(n, k requires 0 <= k < n => ColumnPiece(v, k, blk))
  }

  /** Extraction on dim 1: every value in turn, cut into `nums` vertical pieces. */
  function ExtractedColumns(xs: seq<Vec>, nums: nat, blk: seq<int>): seq<Vec>
    requires |blk| == 2
  {
    Flatten(seq(|xs|, q requires 0 <= q < |xs| => PiecesOf(xs[q], nums, blk)))
  }

  /** Extraction turns n values into `n * nums` pieces, piece k of value q at position `q * nums + k`. */
  lemma ExtractedColumnsLayout(xs: seq<Vec>, nums: nat, blk: seq<int>)
    requires |blk| == 2
    ensures |ExtractedColumns(xs, nums, blk)| == |xs| * nums
    ensures forall q, k :: 0 <= q < |xs| && 0 <= k < nums ==>
              Pos(q, k, nums) < |ExtractedColumns(xs, nums, blk)| &&
              ExtractedColumns(xs, nums, blk)[Pos(q, k, nums)] == ColumnPiece(xs[q], k, blk)
  {
    var rows := seq(|xs|, q requires 0 <= q < |xs| => PiecesOf(xs[q], nums, blk));
    assert Uniform(rows, nums);
    FlattenUniform(rows, nums);
  }

  /** Extracting one more value appends its pieces. */
  lemma ExtractedColumnsSnoc(xs: seq<Vec>, q: nat, nums: nat, blk: seq<int>)
    requires q < |xs| && |blk| == 2
    ensures ExtractedColumns(xs[..q + 1], nums, blk) == ExtractedColumns(xs[..q], nums, blk) + PiecesOf(xs[q], nums, blk)
  {
    var rows := seq(q + 1, p requires 0 <= p < q + 1 => PiecesOf(xs[..q + 1][p], nums, blk));
    var init := seq(q, p requires 0 <= p < q => PiecesOf(xs[..q][p], nums, blk));
    assert rows == init + [PiecesOf(xs[q], nums, blk)];
    FlattenAppend(init, [PiecesOf(xs[q], nums, blk)]);
    assert Flatten([PiecesOf(xs[q], nums, blk)]) == PiecesOf(xs[q], nums, blk) + Flatten([]);
  }

  /** The innermost loop of the dim-1 extraction: append the `nums` vertical pieces of v. */
  method PushPieces(newOps: seq<Vec>, v: Vec, nums: nat, blk: seq<int>) returns (r: seq<Vec>)
    requires |blk| == 2
    ensures r == newOps + PiecesOf(v, nums, blk)
  {
    r := newOps;
    var k := 0;
    while k < nums
      invariant k <= nums && r == newOps + PiecesOf(v, k, blk)
    {
      var offsets := [0, k * blk[1]];
      assert PiecesOf(v, k + 1, blk) == PiecesOf(v, k, blk) + [Slice(v, offsets, blk)];
      r := r + [Slice(v, offsets, blk)];
      k := k + 1;
    }
  }

  /**
   * Extraction on dim 1: every intermediate value of the `g0` x `g1` grid,
   * row by row, is cut into `nums` vertical pieces of size `blk`.
   */
  method ExtractColumns(intermediates: seq<Vec>, g0: nat, g1: nat, nums: nat, blk: seq<int>) returns (r: seq<Vec>)
    requires Pos(g0, 0, g1) <= |intermediates| && |blk| == 2
    ensures r == ExtractedColumns(intermediates[..Pos(g0, 0, g1)], nums, blk)
  {
    ghost var xs := intermediates[..Pos(g0, 0, g1)];
    var newOps: seq<Vec> := [];
    ghost var q := 0;
    assert xs[..0] == [];
    var i := 0;
    while i < g0
      invariant i <= g0 && q == Pos(i, 0, g1) && q <= |xs| && newOps == ExtractedColumns(xs[..q], nums, blk)
    {
      var j := 0;
      while j < g1
        invariant j <= g1 && q == Pos(i, j, g1) && q <= |xs| && newOps == ExtractedColumns(xs[..q], nums, blk)
      {
        PosBound(i, j, g0, g1);
        newOps := PushPieces(newOps, intermediates[i * g1 + j], nums, blk);
        ExtractedColumnsSnoc(xs, q, nums, blk);
        j := j + 1;
        q := q + 1;
      }
      NextRow(i, g1);
      i := i + 1;
    }
    assert xs[..q] == xs;
    r := newOps;
  }

  /** Where the unpack's operand comes from: not a `load_tile`, or a load feeding operand A or B of a `tile_mma`. */
  datatype LoadOrigin = NotLoaded | Loaded(forDpasA: bool, forDpasB: bool)

  /** Loads for `dpas` operands are in vnni format. */
  predicate IsVnni(load: LoadOrigin)
  {
    load.Loaded? && (load.forDpasA || load.forDpasB)
  }

  /**
   * The slice sizes of an extraction: `blk`, with the vnni axis (0 for
   * operand B, 1 for operand A) divided by the vnni factor.
   */
  function SliceSizes(blk: seq<nat>, load: LoadOrigin, factor: nat): (r: seq<nat>)
    requires |blk| == 2 && (IsVnni(load) ==> factor > 0)
    ensures |r| == 2
    ensures !IsVnni(load) ==> r == blk
    ensures IsVnni(load) ==> var axis := if load.forDpasB then 0 else 1;
              r[axis] == blk[axis] / factor && r[1 - axis] == blk[1 - axis]
  {
    if IsVnni(load) then
      var axis := if load.forDpasB then 0 else 1;
      blk[axis := blk[axis] / factor]
    else blk
  }

  const PairError: string :=
    "[Uexpected Code Pattern]: Upack/Pack should appear as pairs. And unpack can be only used by pack. Duplicate unpack if necessarry.\n"

  const VnniConcatError: string :=
    "[Unexpected rare case]: It rarly happens that we need to do concat on vnni transformed vectors (which is 3D instead of 2D). It is essentially a stack on the 2nd dim, but it is not implemented yet.\n"

  /**
   * How a pair of grid sizes and block sizes along one dimension relate, as
   * an unpack and a pack of the same vector must: equal blocks come in equal
   * grids; when the pack's blocks are larger, the input grid is a
   * power-of-two multiple of the output grid; when they are smaller, the
   * output grid is a multiple of the input grid.
   */
  predicate Reblocks(inGrid: nat, outGrid: nat, inBlk: nat, outBlk: nat)
  {
    inGrid > 0 && outGrid > 0 &&
    (inBlk == outBlk ==> inGrid == outGrid) &&
    (inBlk < outBlk ==> inGrid % outGrid == 0 && IsPowerOfTwo(inGrid / outGrid)) &&
    (inBlk > outBlk ==> outGrid % inGrid == 0)
  }

  predicate Blocking(inGrids: seq<nat>, outGrids: seq<nat>, inBlk: seq<nat>, outBlk: seq<nat>)
  {
    |inGrids| == 2 && |outGrids| == 2 && |inBlk| == 2 && |outBlk| == 2 &&
    Reblocks(inGrids[0], outGrids[0], inBlk[0], outBlk[0]) &&
    Reblocks(inGrids[1], outGrids[1], inBlk[1], outBlk[1])
  }

  /** Merging `inGrid / outGrid` blocks at a time leaves `outGrid` blocks. */
  lemma MergeCount(inGrid: nat, outGrid: nat)
    requires inGrid > 0 && outGrid > 0 && inGrid % outGrid == 0
    ensures var nums := inGrid / outGrid;
            nums > 0 && inGrid == Pos(outGrid, 0, nums) && inGrid / nums == outGrid
  {
    var nums := inGrid / outGrid;
    assert inGrid == outGrid * nums;
    if nums == 0 {
      assert false;
    }
    PosDivMod(outGrid, 0, nums);
  }

  lemma GridScale(a: nat, b: nat, c: nat)
    ensures Pos(Pos(a, 0, b), 0, c) == Pos(a, 0, b * c)
  {
    assert (a * b) * c == a * (b * c);
  }

  /** The grid between the two steps: `outGrids[0] x inGrids[1]` blocks, after the dim-0 step. */
  function Dim0Result(inGrids: seq<nat>, outGrids: seq<nat>, inBlk: seq<nat>, outBlk: seq<nat>,
                      inputs: seq<Vec>, load: LoadOrigin, factor: nat): seq<Vec>
    requires Blocking(inGrids, outGrids, inBlk, outBlk) && |inputs| == inGrids[0] * inGrids[1]
    requires IsVnni(load) ==> factor > 0
  {
    if inBlk[0] == outBlk[0] then inputs
    else if inBlk[0] < outBlk[0] then
      var nums := inGrids[0] / outGrids[0];
      MergeCount(inGrids[0], outGrids[0]);
      StackedGrid(inputs, inGrids[0], inGrids[1], nums)
    else
      ExtractedRows(inputs, inGrids[0], inGrids[1], outGrids[0], SliceSizes([outBlk[0], inBlk[1]], load, factor))
  }

  /** The dim-0 step leaves an `outGrids[0] x inGrids[1]` grid. */
  lemma Dim0Count(inGrids: seq<nat>, outGrids: seq<nat>, inBlk: seq<nat>, outBlk: seq<nat>,
                  inputs: seq<Vec>, load: LoadOrigin, factor: nat)
    requires Blocking(inGrids, outGrids, inBlk, outBlk) && |inputs| == inGrids[0] * inGrids[1]
    requires IsVnni(load) ==> factor > 0
    ensures |Dim0Result(inGrids, outGrids, inBlk, outBlk, inputs, load, factor)| == Pos(outGrids[0], 0, inGrids[1])
  {
    if inBlk[0] < outBlk[0] {
      MergeCount(inGrids[0], outGrids[0]);
    }
  }

  function Dim1Result(intermediates: seq<Vec>, inGrids: seq<nat>, outGrids: seq<nat>, inBlk: seq<nat>, outBlk: seq<nat>,
                      load: LoadOrigin, factor: nat): seq<Vec>
    requires Blocking(inGrids, outGrids, inBlk, outBlk) && |intermediates| == Pos(outGrids[0], 0, inGrids[1])
    requires IsVnni(load) ==> factor > 0
  {
    if inBlk[1] == outBlk[1] then intermediates
    else if inBlk[1] < outBlk[1] then
      ConcatGroups(intermediates, inGrids[1] / outGrids[1])
    else
      ExtractedColumns(intermediates, outGrids[1] / inGrids[1], SliceSizes(outBlk, load, factor))
  }

  /** The dim-1 step leaves the pack's `outGrids[0] x outGrids[1]` grid. */
  lemma Dim1Count(intermediates: seq<Vec>, inGrids: seq<nat>, outGrids: seq<nat>, inBlk: seq<nat>, outBlk: seq<nat>,
                  load: LoadOrigin, factor: nat)
    requires Blocking(inGrids, outGrids, inBlk, outBlk) && |intermediates| == Pos(outGrids[0], 0, inGrids[1])
    requires IsVnni(load) ==> factor > 0
    ensures |Dim1Result(intermediates, inGrids, outGrids, inBlk, outBlk, load, factor)| == Pos(outGrids[0], 0, outGrids[1])
  {
    if inBlk[1] < outBlk[1] {
      var nums := inGrids[1] / outGrids[1];
      MergeCount(inGrids[1], outGrids[1]);
      ConcatGroupsLength(intermediates, nums);
      GridScale(outGrids[0], outGrids[1], nums);
      PosDivMod(Pos(outGrids[0], 0, outGrids[1]), 0, nums);
    } else if inBlk[1] > outBlk[1] {
      var nums := outGrids[1] / inGrids[1];
      MergeCount(outGrids[1], inGrids[1]);
      ExtractedColumnsLayout(intermediates, nums, SliceSizes(outBlk, load, factor));
      GridScale(outGrids[0], inGrids[1], nums);
    }
  }

  /**
   * What the pattern does with an unpack: without a pack as its only user it
   * emits the pairing error; a concatenation of vnni-format values is
   * refused; otherwise the pack is replaced by the re-blocked grid.
   */
  function UnpackPackResult(paired: bool, inGrids: seq<nat>, outGrids: seq<nat>, inBlk: seq<nat>, outBlk: seq<nat>,
                            inputs: seq<Vec>, load: LoadOrigin, factor: nat): Rewrite<seq<Vec>>
    requires Blocking(inGrids, outGrids, inBlk, outBlk) && |inputs| == inGrids[0] * inGrids[1]
    requires IsVnni(load) ==> factor > 0
  {
    if !paired then OpError(PairError)
    else if inBlk[1] < outBlk[1] && IsVnni(load) then OpError(VnniConcatError)
    else
      var intermediates := Dim0Result(inGrids, outGrids, inBlk, outBlk, inputs, load, factor);
      Dim0Count(inGrids, outGrids, inBlk, outBlk, inputs, load, factor);
      Rewritten(Dim1Result(intermediates, inGrids, outGrids, inBlk, outBlk, load, factor))
  }

  /**
   * `r` is rewritten exactly when the unpack is paired and no vnni value needs
   * concatenating, is an error otherwise, and holds one value per block of
   * the pack's grid when rewritten.
   */
  predicate UnpackPackVerdict(r: Rewrite<seq<Vec>>, paired: bool, outGrids: seq<nat>, inBlk: seq<nat>, outBlk: seq<nat>, load: LoadOrigin)
    requires |outGrids| == 2 && |inBlk| == 2 && |outBlk| == 2
  {
    (r.Rewritten? <==> paired && !(inBlk[1] < outBlk[1] && IsVnni(load))) &&
    (!r.Rewritten? ==> r.OpError?) &&
    (r.Rewritten? ==> |r.ops| == outGrids[0] * outGrids[1])
  }

  /**
   * The pair is lowered exactly when the unpack is paired and no vnni value
   * needs concatenating, and then the pack is replaced by one value per
   * block of its grid.
   */
  lemma UnpackPackOutcome(paired: bool, inGrids: seq<nat>, outGrids: seq<nat>, inBlk: seq<nat>, outBlk: seq<nat>,
                          inputs: seq<Vec>, load: LoadOrigin, factor: nat)
    requires Blocking(inGrids, outGrids, inBlk, outBlk) && |inputs| == inGrids[0] * inGrids[1]
    requires IsVnni(load) ==> factor > 0
    ensures UnpackPackVerdict(UnpackPackResult(paired, inGrids, outGrids, inBlk, outBlk, inputs, load, factor),
                              paired, outGrids, inBlk, outBlk, load)
  {
    if paired && !(inBlk[1] < outBlk[1] && IsVnni(load)) {
      Dim0Count(inGrids, outGrids, inBlk, outBlk, inputs, load, factor);
      Dim1Count(Dim0Result(inGrids, outGrids, inBlk, outBlk, inputs, load, factor), inGrids, outGrids, inBlk, outBlk, load, factor);
    }
  }

  /** A pack with the unpack's own blocking gives back the unpack's input values unchanged. */
  lemma SameBlockingIsIdentity(inGrids: seq<nat>, blk: seq<nat>, inputs: seq<Vec>, load: LoadOrigin, factor: nat)
    requires Blocking(inGrids, inGrids, blk, blk) && |inputs| == inGrids[0] * inGrids[1]
    requires IsVnni(load) ==> factor > 0
    ensures UnpackPackResult(true, inGrids, inGrids, blk, blk, inputs, load, factor) == Rewritten(inputs)
  {
  }

  /**
   * `matchAndRewrite` of the Unpack/Pack pattern: the dim-0 step (nothing,
   * stack or extract) feeds the dim-1 step (nothing, concat or extract).
   */
  method UnpackPack(paired: bool, inGrids: seq<nat>, outGrids: seq<nat>, inBlk: seq<nat>, outBlk: seq<nat>,
                    inputs: seq<Vec>, load: LoadOrigin, factor: nat) returns (r: Rewrite<seq<Vec>>)
    requires Blocking(inGrids, outGrids, inBlk, outBlk) && |inputs| == inGrids[0] * inGrids[1]
    requires IsVnni(load) ==> factor > 0
    ensures r == UnpackPackResult(paired, inGrids, outGrids, inBlk, outBlk, inputs, load, factor)
  {
    if !paired {
      return OpError(PairError);
    }
    var isVnniFormat := IsVnni(load);
    var intermediates: seq<Vec>;
    if inBlk[0] == outBlk[0] {
      intermediates := inputs;
    } else if inBlk[0] < outBlk[0] {
      var nums := inGrids[0] / outGrids[0];
      MergeCount(inGrids[0], outGrids[0]);
      intermediates := StackRows(inputs, inGrids[0], inGrids[1], nums);
    } else {
      var blkSizes := SliceSizes([outBlk[0], inBlk[1]], load, factor);
      intermediates := ExtractRows(inputs, inGrids[0], inGrids[1], outGrids[0], blkSizes);
    }
    Dim0Count(inGrids, outGrids, inBlk, outBlk, inputs, load, factor);
    var newOps: seq<Vec>;
    if inBlk[1] == outBlk[1] {
      newOps := intermediates;
    } else if inBlk[1] < outBlk[1] {
      if isVnniFormat {
        return OpError(VnniConcatError);
      }
      var nums := inGrids[1] / outGrids[1];
      assert intermediates[..Pos(outGrids[0], 0, inGrids[1])] == intermediates;
      newOps := ConcatColumns(intermediates, outGrids[0], inGrids[1], nums);
    } else {
      var blkSizes := SliceSizes(outBlk, load, factor);
      var nums := outGrids[1] / inGrids[1];
      assert intermediates[..Pos(outGrids[0], 0, inGrids[1])] == intermediates;
      newOps := ExtractColumns(intermediates, outGrids[0], inGrids[1], nums, blkSizes);
    }
    r := Rewritten(newOps);
  }
}

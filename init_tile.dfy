/**
 * The `init_tile` lowering (`SgInitTileOpPattern` and `getBlockArrayLength`
 * in lib/Conversion/XeTileToXeGPU/XeTileOpConversion.cpp): a 2D tile with
 * inner blocks becomes a row-major grid of `create_nd_desc` descriptors, one
 * per block (or per run of `array_length` blocks when a load can fetch
 * several blocks of a row at once).
 */
module InitTile {
  import opened Wrappers
  import opened TileCommon

  /** The bits a 2D block load fetches per row: 64 bytes. */
  const BlockBits: nat := 64 * 8

  /** `ShapedType::kDynamic`, the static offset that stands for a dynamic operand. */
  const Dynamic: int := -0x8000_0000_0000_0000

  /** r runs of w fit in n, and r + 1 do not. */
  predicate LargestFit(r: nat, n: nat, w: nat)
  {
    r * w <= n < (r + 1) * w
  }

  lemma NestedDivision(n: nat, a: nat, b: nat)
    requires a > 0 && b > 0
    ensures LargestFit(n / a / b, n, a * b)
  {
    var q := n / a;
    var r := q / b;
    DivisionFits(n, a);
    DivisionFits(q, b);
    MulMonotone(r * b, q, a);
    MulMonotone(q + 1, (r + 1) * b, a);
    MulRegroup(r, b, a);
    MulRegroup(r + 1, b, a);
  }

  lemma DivisionFits(n: nat, a: nat)
    requires a > 0
    ensures LargestFit(n / a, n, a)
  {
    assert n == (n / a) * a + n % a;
  }

  lemma MulRegroup(r: nat, b: nat, a: nat)
    ensures r * (a * b) == (r * b) * a
  {
  }

  /**
   * `getBlockArrayLength`: how many blocks of `blockWidth` elements of
   * `bitWidth` bits one row of a block load holds, the largest count whose
   * bits fit in `BlockBits`.
   */
  function BlockArrayLength(bitWidth: nat, blockWidth: nat): (r: nat)
    requires bitWidth > 0 && blockWidth > 0
    ensures LargestFit(r, BlockBits, bitWidth * blockWidth)
  {
    NestedDivision(BlockBits, bitWidth, blockWidth);
    BlockBits / bitWidth / blockWidth
  }

  /** An `index` value: a constant, a dynamic operand of the op, or an `arith.addi`. */
  datatype Index = Const(value: int) | Operand(id: nat) | AddI(lhs: Index, rhs: Index)

  /** The value an index denotes, given the values of the operands. */
  function Eval(e: Index, env: nat -> int): int
  {
    match e
    case Const(v) => v
    case Operand(id) => env(id)
    case AddI(a, b) => Eval(a, env) + Eval(b, env)
  }

  /** How many of the static offsets stand for dynamic operands. */
  function CountDynamic(s: seq<int>): (n: nat)
    ensures n <= |s|
  {
    if s == [] then 0 else CountDynamic(s[..|s| - 1]) + (if s[|s| - 1] == Dynamic then 1 else 0)
  }

  /** The offsets of the op: each static offset as it stands, each dynamic one the next dynamic operand. */
  function MergedOffsets(staticOffsets: seq<int>, dynamicOffsets: seq<Index>): (r: seq<Index>)
    requires CountDynamic(staticOffsets) <= |dynamicOffsets|
    ensures |r| == |staticOffsets|
  {
    if staticOffsets == [] then []
    else
      var init := staticOffsets[..|staticOffsets| - 1];
      var last := staticOffsets[|staticOffsets| - 1];
      MergedOffsets(init, dynamicOffsets) + [if last == Dynamic then dynamicOffsets[CountDynamic(init)] else Const(last)]
  }

  /** Offset i is the static offset i, or, when that is dynamic, the dynamic operand numbered by the dynamic offsets before it. */
  lemma {:induction false} MergedOffsetsAt(staticOffsets: seq<int>, dynamicOffsets: seq<Index>, i: nat)
    requires CountDynamic(staticOffsets) <= |dynamicOffsets| && i < |staticOffsets|
    ensures CountDynamic(staticOffsets[..i]) < |dynamicOffsets| || staticOffsets[i] != Dynamic
    ensures MergedOffsets(staticOffsets, dynamicOffsets)[i] ==
              if staticOffsets[i] == Dynamic then dynamicOffsets[CountDynamic(staticOffsets[..i])] else Const(staticOffsets[i])
    decreases |staticOffsets|
  {
    var n := |staticOffsets|;
    var init := staticOffsets[..n - 1];
    CountDynamicPrefix(staticOffsets, i);
    if i < n - 1 {
      assert init[..i] == staticOffsets[..i];
      MergedOffsetsAt(init, dynamicOffsets, i);
    } else {
      assert init == staticOffsets[..i];
    }
  }

  /** A prefix has no more dynamic offsets than the whole, and one less than a prefix ending with one. */
  lemma {:induction false} CountDynamicPrefix(s: seq<int>, i: nat)
    requires i < |s|
    ensures CountDynamic(s[..i]) + (if s[i] == Dynamic then 1 else 0) <= CountDynamic(s)
    decreases |s|
  {
    var init := s[..|s| - 1];
    if i < |s| - 1 {
      assert init[..i] == s[..i];
      CountDynamicPrefix(init, i);
    } else {
      assert init == s[..i];
    }
  }

  /** The loop merging static and dynamic offsets: `j` counts the dynamic operands taken so far. */
  method MergeOffsets(staticOffsets: seq<int>, dynamicOffsets: seq<Index>) returns (offsets: seq<Index>)
    requires CountDynamic(staticOffsets) <= |dynamicOffsets|
    ensures offsets == MergedOffsets(staticOffsets, dynamicOffsets)
  {
    offsets := [];
    var i, j := 0, 0;
    while i != |staticOffsets|
      invariant i <= |staticOffsets| && j == CountDynamic(staticOffsets[..i]) && j <= CountDynamic(staticOffsets)
      invariant offsets == MergedOffsets(staticOffsets[..i], dynamicOffsets)
    {
      assert staticOffsets[..i + 1][..i] == staticOffsets[..i];
      CountDynamicPrefix(staticOffsets, i);
      if staticOffsets[i] == Dynamic {
        offsets := offsets + [dynamicOffsets[j]];
        j := j + 1;
      } else {
        offsets := offsets + [Const(staticOffsets[i])];
      }
      i := i + 1;
    }
    assert staticOffsets[..i] == staticOffsets;
  }

  /** A `create_nd_desc`: the offsets of the block in the source and the descriptor type's shape and array length. */
  datatype TensorDesc = CreateNdDesc(offsetX: Index, offsetY: Index, shape: Shape, arrayLength: nat)

  /** What the op must offer on the path that creates descriptors: divisions by non-zero amounts and two offsets. */
  predicate InitTileOperands(shape: Shape, innerBlk: Option<seq<nat>>, isForLoad: bool, bitWidth: nat,
                             staticOffsets: seq<int>, dynamicOffsets: seq<Index>)
  {
    (|shape| == 2 && innerBlk.Some? && |innerBlk.value| == 2) ==>
      innerBlk.value[0] > 0 && innerBlk.value[1] > 0 && bitWidth > 0 &&
      (isForLoad && shape[1] > innerBlk.value[1] ==> bitWidth * innerBlk.value[1] <= BlockBits) &&
      |staticOffsets| >= 2 && CountDynamic(staticOffsets) <= |dynamicOffsets|
  }

  lemma PositiveProduct(a: nat, b: nat)
    requires a > 0 && b > 0
    ensures a * b > 0
  {
    MulMonotone(1, a, b);
  }

  /** `array_length`: several blocks per load only for a load whose tile is wider than one block. */
  function ArrayLength(shape: Shape, innerBlk: seq<nat>, isForLoad: bool, bitWidth: nat): (r: nat)
    requires |shape| == 2 && |innerBlk| == 2 && innerBlk[1] > 0 && bitWidth > 0
    requires isForLoad && shape[1] > innerBlk[1] ==> bitWidth * innerBlk[1] <= BlockBits
    ensures r > 0
    ensures !(isForLoad && shape[1] > innerBlk[1]) ==> r == 1
  {
    if isForLoad && shape[1] > innerBlk[1] then BlockArrayLength(bitWidth, innerBlk[1]) else 1
  }

  /** `width`: the columns one descriptor covers, `array_length` blocks side by side. */
  function Width(shape: Shape, innerBlk: seq<nat>, isForLoad: bool, bitWidth: nat): (w: nat)
    requires |shape| == 2 && |innerBlk| == 2 && innerBlk[1] > 0 && bitWidth > 0
    requires isForLoad && shape[1] > innerBlk[1] ==> bitWidth * innerBlk[1] <= BlockBits
    ensures w > 0
  {
    var arrayLength := ArrayLength(shape, innerBlk, isForLoad, bitWidth);
    PositiveProduct(arrayLength, innerBlk[1]);
    arrayLength * innerBlk[1]
  }

  /** `blocks`: how many descriptors fit in the tile along each dimension. */
  function Blocks(shape: Shape, innerBlk: seq<nat>, width: nat): (b: seq<nat>)
    requires |shape| == 2 && |innerBlk| == 2 && innerBlk[0] > 0 && width > 0
    ensures |b| == 2
  {
    [shape[0] / innerBlk[0], shape[1] / width]
  }

  /** Descriptor (i, j): its block's offsets added to the tile's offsets. */
  function BlockDesc(innerBlk: seq<nat>, width: nat, arrayLength: nat, offsetX: Index, offsetY: Index, i: nat, j: nat): TensorDesc
    requires |innerBlk| == 2
  {
    CreateNdDesc(AddI(Const(innerBlk[0] * i), offsetX), AddI(Const(width * j), offsetY), innerBlk, arrayLength)
  }

  function DescRow(innerBlk: seq<nat>, width: nat, arrayLength: nat, offsetX: Index, offsetY: Index, i: nat, b1: nat): (r: seq<TensorDesc>)
    requires |innerBlk| == 2
    ensures |r| == b1
  {
    seq(b1, j requires 0 <= j < b1 => BlockDesc(innerBlk, width, arrayLength, offsetX, offsetY, i, j))
  }

  /** The descriptors of a `b0` x `b1` grid of blocks, row by row. */
  function DescGrid(innerBlk: seq<nat>, width: nat, arrayLength: nat, offsetX: Index, offsetY: Index, b0: nat, b1: nat): seq<TensorDesc>
    requires |innerBlk| == 2
  {
    Flatten(seq(b0, i requires 0 <= i < b0 => DescRow(innerBlk, width, arrayLength, offsetX, offsetY, i, b1)))
  }

  /** What the pattern does with an `init_tile`. */
  function InitTileResult(shape: Shape, innerBlk: Option<seq<nat>>, isForLoad: bool, bitWidth: nat,
                          staticOffsets: seq<int>, dynamicOffsets: seq<Index>): Rewrite<seq<TensorDesc>>
    requires InitTileOperands(shape, innerBlk, isForLoad, bitWidth, staticOffsets, dynamicOffsets)
  {
    if |shape| != 2 then OpError("The tile shape should be 2D.")
    else if innerBlk.None? || |innerBlk.value| != 2 then OpError("Missing valid innerBlock for the tile in op.")
    else
      var blk := innerBlk.value;
      var arrayLength := ArrayLength(shape, blk, isForLoad, bitWidth);
      var width := Width(shape, blk, isForLoad, bitWidth);
      var offsets := MergedOffsets(staticOffsets, dynamicOffsets);
      Rewritten(DescGrid(blk, width, arrayLength, offsets[0], offsets[1], Blocks(shape, blk, width)[0], Blocks(shape, blk, width)[1]))
  }

  /**
   * `matchAndRewrite` of the `init_tile` pattern: the checks, `array_length`,
   * the block counts, the merged offsets and the descriptors, row by row.
   */
  method LowerInitTile(shape: Shape, innerBlk: Option<seq<nat>>, isForLoad: bool, bitWidth: nat,
                       staticOffsets: seq<int>, dynamicOffsets: seq<Index>) returns (r: Rewrite<seq<TensorDesc>>)
    requires InitTileOperands(shape, innerBlk, isForLoad, bitWidth, staticOffsets, dynamicOffsets)
    ensures r == InitTileResult(shape, innerBlk, isForLoad, bitWidth, staticOffsets, dynamicOffsets)
  {
    if |shape| != 2 {
      return OpError("The tile shape should be 2D.");
    }
    if innerBlk.None? || |innerBlk.value| != 2 {
      return OpError("Missing valid innerBlock for the tile in op.");
    }
    var blk := innerBlk.value;
    var arrayLength := if isForLoad && shape[1] > blk[1] then BlockArrayLength(bitWidth, blk[1]) else 1;
    var width := arrayLength * blk[1];
    PositiveProduct(arrayLength, blk[1]);
    var blocks := Blocks(shape, blk, width);
    var offsets := MergeOffsets(staticOffsets, dynamicOffsets);
    var xegpuOps := CreateDescs(blk, width, arrayLength, offsets[0], offsets[1], blocks);
    r := Rewritten(xegpuOps);
  }

  /** The loops creating one descriptor per block of the `blocks[0]` x `blocks[1]` grid, row by row. */
  method CreateDescs(blk: seq<nat>, width: nat, arrayLength: nat, offsetsX: Index, offsetsY: Index, blocks: seq<nat>)
    returns (xegpuOps: seq<TensorDesc>)
    requires |blk| == 2 && |blocks| == 2
    ensures xegpuOps == DescGrid(blk, width, arrayLength, offsetsX, offsetsY, blocks[0], blocks[1])
  {
    ghost var rows := seq(blocks[0], i requires 0 <= i < blocks[0] => DescRow(blk, width, arrayLength, offsetsX, offsetsY, i, blocks[1]));
    xegpuOps := [];
    var i := 0;
    while i < blocks[0]
      invariant i <= blocks[0] && xegpuOps == Flatten(rows[..i])
    {
      var row := CreateRow(blk, width, arrayLength, offsetsX, offsetsY, i, blocks[1]);
      FlattenSnoc(rows, i);
      xegpuOps := xegpuOps + row;
      i := i + 1;
    }
    assert rows[..i] == rows;
  }

  /** The inner loop of the lowering: the descriptors of row i of the block grid. */
  method CreateRow(blk: seq<nat>, width: nat, arrayLength: nat, offsetsX: Index, offsetsY: Index, i: nat, b1: nat)
    returns (row: seq<TensorDesc>)
    requires |blk| == 2
    ensures row == DescRow(blk, width, arrayLength, offsetsX, offsetsY, i, b1)
  {
    row := [];
    var j := 0;
    while j < b1
      invariant j <= b1 && row == DescRow(blk, width, arrayLength, offsetsX, offsetsY, i, j)
    {
      var subOffX := Const(blk[0] * i);
      var subOffY := Const(width * j);
      var createNdOp := CreateNdDesc(AddI(subOffX, offsetsX), AddI(subOffY, offsetsY), blk, arrayLength);
      DescRowSnoc(blk, width, arrayLength, offsetsX, offsetsY, i, j);
      row := row + [createNdOp];
      j := j + 1;
    }
  }

  lemma DescRowSnoc(innerBlk: seq<nat>, width: nat, arrayLength: nat, offsetX: Index, offsetY: Index, i: nat, j: nat)
    requires |innerBlk| == 2
    ensures DescRow(innerBlk, width, arrayLength, offsetX, offsetY, i, j + 1) ==
            DescRow(innerBlk, width, arrayLength, offsetX, offsetY, i, j) + [BlockDesc(innerBlk, width, arrayLength, offsetX, offsetY, i, j)]
  {
  }

  /**
   * Descriptor (i, j) of the grid sits at position `i * b1 + j`, starts
   * `innerBlk[0] * i` rows and `width * j` columns past the tile's offsets,
   * and has the inner block's shape.
   */
  lemma DescGridLayout(innerBlk: seq<nat>, width: nat, arrayLength: nat, offsetX: Index, offsetY: Index,
                       b0: nat, b1: nat, env: nat -> int)
    requires |innerBlk| == 2
    ensures |DescGrid(innerBlk, width, arrayLength, offsetX, offsetY, b0, b1)| == b0 * b1
    ensures forall i, j :: 0 <= i < b0 && 0 <= j < b1 ==>
              Pos(i, j, b1) < |DescGrid(innerBlk, width, arrayLength, offsetX, offsetY, b0, b1)| &&
              DescPlaced(DescGrid(innerBlk, width, arrayLength, offsetX, offsetY, b0, b1)[Pos(i, j, b1)],
                         innerBlk, width, arrayLength, offsetX, offsetY, i, j, env)
  {
    var rows := seq(b0, i requires 0 <= i < b0 => DescRow(innerBlk, width, arrayLength, offsetX, offsetY, i, b1));
    assert Uniform(rows, b1);
    FlattenUniformLength(rows, b1);
    var grid := DescGrid(innerBlk, width, arrayLength, offsetX, offsetY, b0, b1);
    assert grid == Flatten(rows);
    forall i, j | 0 <= i < b0 && 0 <= j < b1
      ensures Pos(i, j, b1) < |grid| && DescPlaced(grid[Pos(i, j, b1)], innerBlk, width, arrayLength, offsetX, offsetY, i, j, env)
    {
      FlattenAt(rows, b1, i, j);
      BlockDescPlaced(innerBlk, width, arrayLength, offsetX, offsetY, i, j, env);
    }
  }

  /** Descriptor d starts `innerBlk[0] * i` rows and `width * j` columns past the offsets, with the inner block's shape. */
  ghost predicate DescPlaced(d: TensorDesc, innerBlk: seq<nat>, width: nat, arrayLength: nat, offsetX: Index, offsetY: Index,
                             i: nat, j: nat, env: nat -> int)
    requires |innerBlk| == 2
  {
    Eval(d.offsetX, env) == innerBlk[0] * i + Eval(offsetX, env) &&
    Eval(d.offsetY, env) == width * j + Eval(offsetY, env) &&
    d.shape == innerBlk && d.arrayLength == arrayLength
  }

  lemma BlockDescPlaced(innerBlk: seq<nat>, width: nat, arrayLength: nat, offsetX: Index, offsetY: Index, i: nat, j: nat, env: nat -> int)
    requires |innerBlk| == 2
    ensures DescPlaced(BlockDesc(innerBlk, width, arrayLength, offsetX, offsetY, i, j), innerBlk, width, arrayLength, offsetX, offsetY, i, j, env)
  {
  }

  /** Along one axis of extent `n`, the `n / x` blocks of size `x` lie inside the axis and one more would not. */
  lemma AxisCover(n: nat, x: nat)
    requires x > 0
    ensures Pos(n / x, 0, x) <= n < Pos(n / x, 0, x) + x
    ensures forall i :: 0 <= i < n / x ==> Pos(i, 0, x) + x <= n
  {
    forall i | 0 <= i < n / x
      ensures Pos(i, 0, x) + x <= n
    {
      MulMonotone(i + 1, n / x, x);
    }
  }

  /**
   * The block grid covers the tile but for a remainder smaller than one block
   * (or one `array_length` run) along each dimension: every descriptor's block
   * lies inside the tile, and another row or column of blocks would not fit.
   */
  lemma {:induction false} BlocksCoverTile(shape: Shape, innerBlk: seq<nat>, width: nat)
    requires |shape| == 2 && |innerBlk| == 2 && innerBlk[0] > 0 && width > 0
    ensures var b := Blocks(shape, innerBlk, width);
            Pos(b[0], 0, innerBlk[0]) <= shape[0] < Pos(b[0], 0, innerBlk[0]) + innerBlk[0] &&
            Pos(b[1], 0, width) <= shape[1] < Pos(b[1], 0, width) + width
    ensures var b := Blocks(shape, innerBlk, width);
            forall i :: 0 <= i < b[0] ==> Pos(i, 0, innerBlk[0]) + innerBlk[0] <= shape[0]
    ensures var b := Blocks(shape, innerBlk, width);
            forall j :: 0 <= j < b[1] ==> Pos(j, 0, width) + width <= shape[1]
  {
    AxisCover(shape[0], innerBlk[0]);
    AxisCover(shape[1], width);
  }

  /**
   * An `init_tile` with a 2D shape and two inner block sizes becomes one
   * descriptor per block of the block grid, `shape[0] / innerBlk[0]` rows of
   * `shape[1] / width` descriptors, the op's own offsets taken from the
   * merged static and dynamic offsets; any other tile is an error.
   */
  lemma InitTileOutcome(shape: Shape, innerBlk: Option<seq<nat>>, isForLoad: bool, bitWidth: nat,
                        staticOffsets: seq<int>, dynamicOffsets: seq<Index>)
    requires InitTileOperands(shape, innerBlk, isForLoad, bitWidth, staticOffsets, dynamicOffsets)
    ensures var r := InitTileResult(shape, innerBlk, isForLoad, bitWidth, staticOffsets, dynamicOffsets);
            (r.Rewritten? <==> |shape| == 2 && innerBlk.Some? && |innerBlk.value| == 2) && (!r.Rewritten? ==> r.OpError?)
    ensures |shape| == 2 && innerBlk.Some? && |innerBlk.value| == 2 ==>
              var blk := innerBlk.value;
              var width := ArrayLength(shape, blk, isForLoad, bitWidth) * blk[1];
              var r := InitTileResult(shape, innerBlk, isForLoad, bitWidth, staticOffsets, dynamicOffsets);
              width > 0 && |r.ops| == (shape[0] / blk[0]) * (shape[1] / width)
  {
    if |shape| == 2 && innerBlk.Some? && |innerBlk.value| == 2 {
      var blk := innerBlk.value;
      var arrayLength := ArrayLength(shape, blk, isForLoad, bitWidth);
      var width := arrayLength * blk[1];
      PositiveProduct(arrayLength, blk[1]);
      var offsets := MergedOffsets(staticOffsets, dynamicOffsets);
      DescGridLayout(blk, width, arrayLength, offsets[0], offsets[1], shape[0] / blk[0], shape[1] / width, _ => 0);
    }
  }
}

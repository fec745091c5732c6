/**
 * The `load_tile` lowering (`SgLoadTileOpPattern` in
 * lib/Conversion/XeTileToXeGPU/XeTileOpConversion.cpp): every descriptor the
 * tile was lowered to is loaded with one `load_nd`, whose vector shape
 * carries the vnni split for `dpas` operands and the `array_length` of the
 * descriptor; an array load is then taken apart block by block.
 */
module LoadTile {
  import opened Wrappers
  import opened TileCommon

  /** The bits of one SIMD lane; narrower elements are packed `32 / bitWidth` to a lane by the vnni transform. */
  const SimdWidthInBits: nat := 32

  /** The type of a source descriptor: its block shape and its array length. */
  datatype DescType = DescType(shape: Shape, arrayLength: nat)

  /** A loaded value: the `load_nd` of source number `source`, or block `position` extracted from an array load. */
  datatype Loaded =
    | LoadNd(source: nat, shape: Shape, vnniAxis: Option<nat>)
    | Extract(load: Loaded, position: nat)

  function VnniFactor(bitWidth: nat): nat
    requires bitWidth > 0
  {
    SimdWidthInBits / bitWidth
  }

  /** The vnni axis: 0 for operand B, 1 for operand A, and none unless the element packs into a lane. */
  function VnniAxis(forDpasA: bool, forDpasB: bool, bitWidth: nat): Option<nat>
    requires bitWidth > 0
  {
    if (forDpasA || forDpasB) && VnniFactor(bitWidth) > 1 then Some(if forDpasB then 0 else 1) else None
  }

  /** The vnni transform applies exactly to `dpas` operands of at most 16 bits. */
  lemma VnniOnlyForNarrowDpasOperands(forDpasA: bool, forDpasB: bool, bitWidth: nat)
    requires bitWidth > 0
    ensures VnniAxis(forDpasA, forDpasB, bitWidth).Some? <==> (forDpasA || forDpasB) && bitWidth <= 16
    ensures VnniAxis(forDpasA, forDpasB, bitWidth) == Some(0) <==> forDpasB && bitWidth <= 16
  {
    var q := VnniFactor(bitWidth);
    assert SimdWidthInBits == q * bitWidth + SimdWidthInBits % bitWidth;
    MulMonotoneIf(q + 1, 2, bitWidth);
    MulMonotoneIf(2, q, bitWidth);
  }

  /**
   * The vector shape of a load: with vnni, the axis is divided by the factor
   * and the factor becomes a new innermost dimension; an array length other
   * than 1 becomes a new outermost dimension.
   */
  function LoadShape(shape: Shape, arrayLength: nat, vnniAxis: Option<nat>, factor: nat): Shape
    requires vnniAxis.Some? ==> vnniAxis.value < |shape| && factor > 0
  {
    var split := if vnniAxis.Some? then shape[vnniAxis.value := shape[vnniAxis.value] / factor] + [factor] else shape;
    if arrayLength != 1 then [arrayLength] + split else split
  }

  /** Splitting `a` into `a / factor` lanes of `factor` keeps `a * b` elements. */
  lemma VnniSplitKeepsElements(a: nat, b: nat, factor: nat)
    requires factor > 0 && a % factor == 0
    ensures (a / factor) * (b * factor) == a * b
  {
    assert (a / factor) * (b * factor) == ((a / factor) * factor) * b;
  }

  /**
   * A load of a 2D block reads every element of the block, `arrayLength`
   * times over for an array load: with vnni (the factor dividing the axis)
   * the shape gains one dimension and keeps its element count, and a
   * non-unit array length adds an outer dimension that multiplies it.
   */
  lemma LoadShapeElements(shape: Shape, arrayLength: nat, vnniAxis: Option<nat>, factor: nat)
    requires |shape| == 2 && (vnniAxis.Some? ==> vnniAxis.value < 2 && factor > 0 && shape[vnniAxis.value] % factor == 0)
    ensures var s := LoadShape(shape, arrayLength, vnniAxis, factor);
            |s| == 2 + (if vnniAxis.Some? then 1 else 0) + (if arrayLength != 1 then 1 else 0) &&
            Product(s) == (if arrayLength != 1 then arrayLength else 1) * (shape[0] * shape[1]) &&
            (vnniAxis.Some? ==> s[|s| - 1] == factor)
  {
    var split := if vnniAxis.Some? then shape[vnniAxis.value := shape[vnniAxis.value] / factor] + [factor] else shape;
    SplitElements(shape, vnniAxis, factor, split);
    if arrayLength != 1 {
      assert ([arrayLength] + split)[1..] == split;
    }
  }

  lemma SplitElements(shape: Shape, vnniAxis: Option<nat>, factor: nat, split: Shape)
    requires |shape| == 2 && (vnniAxis.Some? ==> vnniAxis.value < 2 && factor > 0 && shape[vnniAxis.value] % factor == 0)
    requires split == if vnniAxis.Some? then shape[vnniAxis.value := shape[vnniAxis.value] / factor] + [factor] else shape
    ensures Product(split) == shape[0] * shape[1]
  {
    if vnniAxis == Some(0) {
      Product3(shape[0] / factor, shape[1], factor, split);
      VnniSplitKeepsElements(shape[0], shape[1], factor);
    } else if vnniAxis == Some(1) {
      Product3(shape[0], shape[1] / factor, factor, split);
      VnniSplitKeepsElements(shape[1], 1, factor);
    } else {
      assert split[1..][1..] == [];
      assert Product(split[1..]) == shape[1] * Product([]);
    }
  }

  lemma Product3(a: nat, b: nat, c: nat, s: Shape)
    requires s == [a, b, c]
    ensures Product(s) == a * (b * c)
  {
    assert s[1..] == [b, c] && s[1..][1..] == [c] && s[1..][1..][1..] == [];
    assert Product(s[1..][1..]) == c * Product([]);
    assert Product(s[1..]) == b * c;
  }

  /** The values one source is lowered to: its load, or each of the `array_length` blocks extracted from it. */
  function SourceValues(source: nat, desc: DescType, vnniAxis: Option<nat>, factor: nat): (r: seq<Loaded>)
    requires vnniAxis.Some? ==> vnniAxis.value < |desc.shape| && factor > 0
    ensures |r| == if desc.arrayLength == 1 then 1 else desc.arrayLength
  {
    var ld := LoadNd(source, LoadShape(desc.shape, desc.arrayLength, vnniAxis, factor), vnniAxis);
    if desc.arrayLength == 1 then [ld] else seq(desc.arrayLength, i requires 0 <= i < desc.arrayLength => Extract(ld, i))
  }

  /** What the pattern needs of the op: a non-zero bit width, and 2D blocks where vnni splits an axis. */
  predicate LoadOperands(forDpasA: bool, forDpasB: bool, bitWidth: nat, sources: seq<DescType>)
  {
    bitWidth > 0 &&
    (VnniAxis(forDpasA, forDpasB, bitWidth).Some? ==> forall s :: 0 <= s < |sources| ==> |sources[s].shape| >= 2)
  }

  function AllValues(sources: seq<DescType>, vnniAxis: Option<nat>, factor: nat): seq<seq<Loaded>>
    requires vnniAxis.Some? ==> vnniAxis.value < 2 && factor > 0 && forall s :: 0 <= s < |sources| ==> |sources[s].shape| >= 2
  {
    seq(|sources|, s requires 0 <= s < |sources| => SourceValues(s, sources[s], vnniAxis, factor))
  }

  /** What the pattern does with a `load_tile`: nothing unless the tile has inner blocks, otherwise the values of every source in turn. */
  function LoadTileResult(hasInnerBlocks: bool, forDpasA: bool, forDpasB: bool, bitWidth: nat, sources: seq<DescType>): Rewrite<seq<Loaded>>
    requires LoadOperands(forDpasA, forDpasB, bitWidth, sources)
  {
    if !hasInnerBlocks then MatchFailure
    else Rewritten(Flatten(AllValues(sources, VnniAxis(forDpasA, forDpasB, bitWidth), VnniFactor(bitWidth))))
  }

  /** `matchAndRewrite` of the `load_tile` pattern. */
  method LowerLoadTile(hasInnerBlocks: bool, forDpasA: bool, forDpasB: bool, bitWidth: nat, sources: seq<DescType>)
    returns (r: Rewrite<seq<Loaded>>)
    requires LoadOperands(forDpasA, forDpasB, bitWidth, sources)
    ensures r == LoadTileResult(hasInnerBlocks, forDpasA, forDpasB, bitWidth, sources)
  {
    if !hasInnerBlocks {
      return MatchFailure;
    }
    var factor := SimdWidthInBits / bitWidth;
    var vnniAxis: Option<nat> := None;
    if (forDpasA || forDpasB) && factor > 1 {
      vnniAxis := Some(if forDpasB then 0 else 1);
    }
    ghost var all := AllValues(sources, vnniAxis, factor);
    var xegpuOps: seq<Loaded> := [];
    var s := 0;
    while s < |sources|
      invariant s <= |sources| && xegpuOps == Flatten(all[..s])
    {
      var values := LoadSource(s, sources[s], vnniAxis, factor);
      FlattenSnoc(all, s);
      xegpuOps := xegpuOps + values;
      s := s + 1;
    }
    assert all[..s] == all;
    r := Rewritten(xegpuOps);
  }

  /** The body of the loop over the sources: the load of source s, taken apart when it is an array load. */
  method LoadSource(s: nat, desc: DescType, vnniAxis: Option<nat>, factor: nat) returns (values: seq<Loaded>)
    requires vnniAxis.Some? ==> vnniAxis.value < |desc.shape| && factor > 0
    ensures values == SourceValues(s, desc, vnniAxis, factor)
  {
    var shape := desc.shape;
    var arrayLength := desc.arrayLength;
    if vnniAxis.Some? {
      var axis := vnniAxis.value;
      shape := shape[axis := shape[axis] / factor];
      shape := shape + [factor];
    }
    if arrayLength != 1 {
      shape := [arrayLength] + shape;
    }
    var ldOp := LoadNd(s, shape, vnniAxis);
    if arrayLength == 1 {
      return [ldOp];
    }
    values := [];
    var i := 0;
    while i < arrayLength
      invariant i <= arrayLength && values == seq(i, k requires 0 <= k < i => Extract(ldOp, k))
    {
      assert seq(i + 1, k requires 0 <= k < i + 1 => Extract(ldOp, k)) == seq(i, k requires 0 <= k < i => Extract(ldOp, k)) + [Extract(ldOp, i)];
      values := values + [Extract(ldOp, i)];
      i := i + 1;
    }
  }

  /**
   * When every source has the same array length, the tile is lowered to
   * one value per source, or `arrayLength` per source taken apart in order:
   * value `s * arrayLength + i` is block i of source s.
   */
  lemma LoadedValuesLayout(forDpasA: bool, forDpasB: bool, bitWidth: nat, sources: seq<DescType>, arrayLength: nat)
    requires LoadOperands(forDpasA, forDpasB, bitWidth, sources)
    requires forall s :: 0 <= s < |sources| ==> sources[s].arrayLength == arrayLength
    ensures var r := LoadTileResult(true, forDpasA, forDpasB, bitWidth, sources);
            var per := if arrayLength == 1 then 1 else arrayLength;
            |r.ops| == |sources| * per &&
            forall s, i :: 0 <= s < |sources| && 0 <= i < per ==>
              Pos(s, i, per) < |r.ops| &&
              (if arrayLength == 1 then r.ops[Pos(s, i, per)].LoadNd? && r.ops[Pos(s, i, per)].source == s
               else r.ops[Pos(s, i, per)].Extract? && r.ops[Pos(s, i, per)].position == i &&
                    r.ops[Pos(s, i, per)].load.LoadNd? && r.ops[Pos(s, i, per)].load.source == s)
  {
    var per := if arrayLength == 1 then 1 else arrayLength;
    var all := AllValues(sources, VnniAxis(forDpasA, forDpasB, bitWidth), VnniFactor(bitWidth));
    assert Uniform(all, per);
    FlattenUniform(all, per);
  }
}

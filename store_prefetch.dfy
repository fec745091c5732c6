/**
 * The `store_tile` and `prefetch_tile` lowerings (`SgStoreTileOpPattern` and
 * `SgPrefetchTileOpPattern` in lib/Conversion/XeTileToXeGPU/XeTileOpConversion.cpp):
 * one `store_nd` per (descriptor, value) pair, and one `prefetch_nd` per
 * descriptor of the tile's block grid.
 */
module StorePrefetch {
  import opened TileCommon

  /** A `store_nd` of a value through a descriptor. */
  datatype Store<T, V> = StoreNd(tile: T, value: V)

  const StorePrefix: string := "[Failed to lower the StoreOp]tile and value size doesn't match.tiles: "
  const PrefetchError: string := "Failed to lower LoadTileOp because shape[0] * shape[1] != sources.size()."

  /** The error of a store whose descriptor and value counts differ. */
  function StoreError(tiles: nat, values: nat): string
  {
    StorePrefix + DecimalString(tiles) + ", values: " + DecimalString(values) + "\n"
  }

  /** The error names both counts: each can be read back, in decimal, from its place in the message. */
  lemma StoreErrorNamesCounts(tiles: nat, values: nat)
    ensures var r, dt, dv := StoreError(tiles, values), DecimalString(tiles), DecimalString(values);
            |r| == |StorePrefix| + |dt| + 10 + |dv| + 1 &&
            r[..|StorePrefix|] == StorePrefix &&
            r[|StorePrefix|..|StorePrefix| + |dt|] == dt && DecimalValue(dt) == tiles &&
            r[|r| - 1 - |dv|..|r| - 1] == dv && DecimalValue(dv) == values &&
            r[|r| - 1] == '\n'
  {
    var dt, dv := DecimalString(tiles), DecimalString(values);
    MessageParts(StorePrefix, dt, ", values: ", dv, "\n");
    DecimalRoundTrip(tiles);
    DecimalRoundTrip(values);
  }

  lemma MessageParts<T>(a: seq<T>, b: seq<T>, c: seq<T>, d: seq<T>, e: seq<T>)
    ensures var r := a + b + c + d + e;
            |r| == |a| + |b| + |c| + |d| + |e| &&
            r[..|a|] == a && r[|a|..|a| + |b|] == b && r[|r| - |e| - |d|..|r| - |e|] == d && r[|r| - |e|..] == e
  {
    var r := a + b + c + d + e;
    assert r == (a + b) + (c + (d + e));
    assert r == ((a + b) + c) + d + e;
  }

  /** What the pattern does with a `store_tile`: an error unless there is one value per descriptor, otherwise the stores in order. */
  function StoreResult<T, V>(tiles: seq<T>, values: seq<V>): Rewrite<seq<Store<T, V>>>
  {
    if |tiles| != |values| then OpError(StoreError(|tiles|, |values|))
    else Rewritten(seq(|tiles|, i requires 0 <= i < |tiles| => StoreNd(tiles[i], values[i])))
  }

  /** `matchAndRewrite` of the `store_tile` pattern. */
  method LowerStoreTile<T, V>(tiles: seq<T>, values: seq<V>) returns (r: Rewrite<seq<Store<T, V>>>)
    ensures r == StoreResult(tiles, values)
  {
    if |tiles| != |values| {
      return OpError(StoreError(|tiles|, |values|));
    }
    var ops: seq<Store<T, V>> := [];
    var i := 0;
    while i < |tiles|
      invariant i <= |tiles| && ops == seq(i, k requires 0 <= k < i => StoreNd(tiles[k], values[k]))
    {
      ops := ops + [StoreNd(tiles[i], values[i])];
      i := i + 1;
    }
    r := Rewritten(ops);
  }

  /** The descriptors of the stores. */
  function StoredTiles<T, V>(ops: seq<Store<T, V>>): seq<T>
  {
    if ops == [] then [] else [ops[0].tile] + StoredTiles(ops[1..])
  }

  /** The values of the stores. */
  function StoredValues<T, V>(ops: seq<Store<T, V>>): seq<V>
  {
    if ops == [] then [] else [ops[0].value] + StoredValues(ops[1..])
  }

  /**
   * A store is rewritten exactly when the counts agree; then it stores
   * every value, in order, through the descriptor of the same position:
   * the descriptors and the values can be read back from the stores.
   */
  lemma {:induction false} StoreRoundTrip<T, V>(tiles: seq<T>, values: seq<V>)
    ensures StoreResult(tiles, values).Rewritten? <==> |tiles| == |values|
    ensures |tiles| == |values| ==>
              StoredTiles(StoreResult(tiles, values).ops) == tiles &&
              StoredValues(StoreResult(tiles, values).ops) == values
  {
    if |tiles| == |values| && tiles != [] {
      StoreRoundTrip(tiles[1..], values[1..]);
      var ops := StoreResult(tiles, values).ops;
      assert ops[1..] == StoreResult(tiles[1..], values[1..]).ops;
      assert tiles == [tiles[0]] + tiles[1..];
      assert values == [values[0]] + values[1..];
    }
  }

  /** Row i of the prefetch grid: the descriptors `i * shape[1] + j`, for j = 0 .. shape[1] - 1. */
  function PrefetchRow<T>(tiles: seq<T>, h: nat, w: nat, i: nat): (r: seq<T>)
    requires |tiles| == h * w && i < h
    ensures |r| == w
  {
    seq(w, j requires 0 <= j < w => PosBound(i, j, h, w); tiles[Pos(i, j, w)])
  }

  /**
   * What the pattern does with a `prefetch_tile`: nothing unless the tile is
   * 4D, an error unless there is one descriptor per block of the
   * `shape[0] x shape[1]` grid, otherwise a prefetch of each block, row by row.
   */
  function PrefetchResult<T>(shape: Shape, tiles: seq<T>): (r: Rewrite<seq<T>>)
    ensures r.Rewritten? <==> |shape| == 4 && shape[0] * shape[1] == |tiles|
    ensures |shape| != 4 ==> r.MatchFailure?
    ensures |shape| == 4 && shape[0] * shape[1] != |tiles| ==> r == OpError(PrefetchError)
  {
    if |shape| != 4 then MatchFailure
    else if shape[0] * shape[1] != |tiles| then OpError(PrefetchError)
    else Rewritten(Flatten(seq(shape[0], i requires 0 <= i < shape[0] => PrefetchRow(tiles, shape[0], shape[1], i))))
  }

  /** `matchAndRewrite` of the `prefetch_tile` pattern. */
  method LowerPrefetchTile<T>(shape: Shape, tiles: seq<T>) returns (r: Rewrite<seq<T>>)
    ensures r == PrefetchResult(shape, tiles)
  {
    if |shape| != 4 {
      return MatchFailure;
    }
    if shape[0] * shape[1] != |tiles| {
      return OpError(PrefetchError);
    }
    ghost var rows := seq(shape[0], i requires 0 <= i < shape[0] => PrefetchRow(tiles, shape[0], shape[1], i));
    var ops: seq<T> := [];
    var i := 0;
    while i < shape[0]
      invariant i <= shape[0] && ops == Flatten(rows[..i])
    {
      var row := PrefetchRowOps(tiles, shape[0], shape[1], i);
      FlattenSnoc(rows, i);
      ops := ops + row;
      i := i + 1;
    }
    assert rows[..i] == rows;
    r := Rewritten(ops);
  }

  /** The j loop of row i: the descriptors prefetched for that row, in order. */
  method PrefetchRowOps<T>(tiles: seq<T>, h: nat, w: nat, i: nat) returns (row: seq<T>)
    requires |tiles| == h * w && i < h
    ensures row == PrefetchRow(tiles, h, w, i)
  {
    row := [];
    var j := 0;
    while j < w
      invariant j <= w && row == PrefetchRow(tiles, h, w, i)[..j]
    {
      PosBound(i, j, h, w);
      var tile := tiles[i * w + j];
      assert PrefetchRow(tiles, h, w, i)[..j + 1] == PrefetchRow(tiles, h, w, i)[..j] + [tile];
      row := row + [tile];
      j := j + 1;
    }
    assert PrefetchRow(tiles, h, w, i)[..j] == PrefetchRow(tiles, h, w, i);
  }

  /** A prefetch that is rewritten visits every descriptor exactly once, in the order the tile lists them. */
  lemma PrefetchVisitsEveryTileInOrder<T>(shape: Shape, tiles: seq<T>)
    requires PrefetchResult(shape, tiles).Rewritten?
    ensures PrefetchResult(shape, tiles).ops == tiles
  {
    var h, w := shape[0], shape[1];
    var rows := seq(h, i requires 0 <= i < h => PrefetchRow(tiles, h, w, i));
    var ops := Flatten(rows);
    assert Uniform(rows, w);
    FlattenUniform(rows, w);
    forall p | 0 <= p < |tiles|
      ensures ops[p] == tiles[p]
    {
      PosSplit(p, h, w);
      assert ops[Pos(p / w, p % w, w)] == rows[p / w][p % w];
    }
  }
}

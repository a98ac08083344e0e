/**
 * pepse.world.Terrain: the ground. Its height at an x is a Perlin-noise
 * offset from two thirds of the window height, snapped down to whole
 * blocks; the ground is laid out in columns of 20 blocks, one column per
 * block width. The noise generator is a parameter: any function of
 * (column, number of columns, frequency).
 */
module Terrains {
  import opened Wrappers
  import opened Vectors
  import R = Renderers
  import GO = GameObjects
  import B = Blocks
  import PL = PepseLayers

  const TERRAIN_TAG: string := "terrain"
  const TERRAIN_HEIGHT_RATIO: real := 0.666
  const TERRAIN_DEPTH: nat := 20
  const NOISE_FREQUENCY: int := 50

  type Noise = (int, int, int) -> real

  datatype Terrain = Terrain(groundLayer: int, windowDims: Vec, groundHeightAtX0: int, noise: Noise)

  /** The constructor: the height at x = 0 is 0.666 of the window height, both truncated to whole pixels. */
  function Create(groundLayer: int, windowDims: Vec, noise: Noise): (t: Terrain)
    ensures t.groundLayer == groundLayer && t.windowDims == windowDims && t.noise == noise
    ensures t.groundHeightAtX0 == FloatToInt(FloatToInt(windowDims.y) as real * TERRAIN_HEIGHT_RATIO)
    ensures 0.0 <= windowDims.y < 0x7fff_ffff as real ==> 0 <= t.groundHeightAtX0 <= windowDims.y.Floor
  {
    var h := FloatToInt(FloatToInt(windowDims.y) as real * TERRAIN_HEIGHT_RATIO);
    RatioBelowOne(FloatToInt(windowDims.y));
    Terrain(groundLayer, windowDims, h, noise)
  }

  lemma RatioBelowOne(n: int)
    ensures 0 <= n < 0x7fff_ffff ==> 0 <= FloatToInt(n as real * TERRAIN_HEIGHT_RATIO) <= n
  {
    var x := n as real * TERRAIN_HEIGHT_RATIO;
    if 0 <= n < 0x7fff_ffff {
      assert 0.0 <= x <= n as real;
    }
  }

  /** The noise column an x falls in: `(int)(x / 30)`, which rounds toward zero. */
  function ColumnOf(x: real): (c: int)
    ensures IsInt32(c)
  {
    FloatToInt(x / B.SIZE as real)
  }

  /** The unsnapped height of a noise column: the int `groundHeightAtX0 - terrainHeight`, with Java's wrap-around. */
  function RawHeight(t: Terrain, column: int): int {
    var numBlocks := FloatToInt(t.windowDims.x / B.SIZE as real);
    var noiseValue := t.noise(column, numBlocks, NOISE_FREQUENCY);
    var terrainHeight := FloatToInt(noiseValue * t.windowDims.y / 2.0);
    Wrap32(t.groundHeightAtX0 - terrainHeight)
  }

  /** The raw height of a column rounded down to a multiple of the block size. */
  function ColumnHeight(t: Terrain, column: int): (r: real)
    ensures r.Floor as real == r && r.Floor % B.SIZE == 0
    ensures r <= RawHeight(t, column) as real < r + B.SIZE as real
  {
    var h := RawHeight(t, column);
    ((h / B.SIZE) * B.SIZE) as real
  }

  /**
   * `groundHeightAt(x)`: the snapped height of the column x falls in. The
   * result is a whole number of blocks, at most one block above the raw
   * height, and depends on x only through its column.
   */
  function GroundHeightAt(t: Terrain, x: real): (r: real)
    ensures r.Floor as real == r && r.Floor % B.SIZE == 0
    ensures r <= RawHeight(t, ColumnOf(x)) as real < r + B.SIZE as real
  {
    ColumnHeight(t, ColumnOf(x))
  }

  /** Every x in the block-wide strip [30k, 30k + 30), k >= 0, has the height of column k. */
  lemma StripHasColumnHeight(t: Terrain, k: nat, x: real)
    requires k < 0x7fff_ffff / B.SIZE
    requires (k * B.SIZE) as real <= x < ((k + 1) * B.SIZE) as real
    ensures GroundHeightAt(t, x) == ColumnHeight(t, k)
    ensures GroundHeightAt(t, x) == GroundHeightAt(t, (k * B.SIZE) as real)
  {
    ColumnOfNonNegative(k, x);
    ColumnOfNonNegative(k, (k * B.SIZE) as real);
  }

  /** For x >= 0 the columns are the block-wide strips [30k, 30k + 30). */
  lemma {:induction false} ColumnOfNonNegative(k: nat, x: real)
    requires k < 0x7fff_ffff / B.SIZE
    requires (k * B.SIZE) as real <= x < ((k + 1) * B.SIZE) as real
    ensures ColumnOf(x) == k
  {
    var q := x / B.SIZE as real;
    assert q * B.SIZE as real == x;
    assert k as real <= q < (k + 1) as real;
  }

  /**
   * Because the cast rounds toward zero, the strip (-30, 30) is one column,
   * twice as wide as every other: the ground is flat across x = 0.
   */
  lemma ColumnAroundZeroIsDoubleWidth(t: Terrain, x: real)
    requires -B.SIZE as real < x < B.SIZE as real
    ensures ColumnOf(x) == 0
    ensures GroundHeightAt(t, x) == GroundHeightAt(t, 0.0)
  {
    var q := x / B.SIZE as real;
    assert q * B.SIZE as real == x;
    assert -1.0 < q < 1.0;
  }

  /** A placed block: the object and the layer it is added to. */
  datatype Placed = Placed(block: GO.GameObject, layer: int)

  /**
   * Block `i` of the column at x: `i` blocks below the ground height, tagged
   * "terrain", in the ground layer for the top two blocks and in the bottom
   * terrain layer below them. `renderable` stands for the block's colour.
   */
  function BlockAt(t: Terrain, x: int, i: nat, renderable: Option<R.Renderable>): (p: Placed)
    ensures p.block.tag == TERRAIN_TAG
    ensures p.block.transform.topLeft == Vec(x as real, GroundHeightAt(t, x as real) + (i * B.SIZE) as real)
    ensures i <= 1 ==> p.layer == t.groundLayer
    ensures i > 1 ==> p.layer == PL.BOTTOM_TERRAIN_LAYER
  {
    var b := B.Create(Vec(x as real, GroundHeightAt(t, x as real) + (i * B.SIZE) as real), renderable);
    Placed(b.(tag := TERRAIN_TAG), if i > 1 then PL.BOTTOM_TERRAIN_LAYER else t.groundLayer)
  }

  /** How many columns `createInRange(minX, maxX)` lays: one per 30 pixels from minX, strictly below maxX. */
  function ColumnCount(minX: int, maxX: int): (n: nat)
    ensures minX + (n - 1) * B.SIZE < maxX || n == 0
    ensures minX + n * B.SIZE >= maxX
  {
    if maxX <= minX then 0 else (maxX - minX + B.SIZE - 1) / B.SIZE
  }

  /** Any x from minX in steps of 30 that is below maxX is one of the columns. */
  lemma ColumnsAreExactlyTheSteps(minX: int, maxX: int, c: nat)
    ensures minX + c * B.SIZE < maxX <==> c < ColumnCount(minX, maxX)
  {
    var n := ColumnCount(minX, maxX);
    if c < n {
      assert minX + c * B.SIZE <= minX + (n - 1) * B.SIZE;
    } else {
      assert minX + c * B.SIZE >= minX + n * B.SIZE;
    }
  }

  /**
   * `createInRange(minX, maxX)`: the blocks added, in the order they are
   * added. Column c is at x = minX + 30c; it holds `TERRAIN_DEPTH` blocks
   * stacked downward from the ground height.
   */
  method CreateInRange(t: Terrain, minX: int, maxX: int, renderable: Option<R.Renderable>)
    returns (blocks: seq<Placed>)
    ensures |blocks| == ColumnCount(minX, maxX) * TERRAIN_DEPTH
    ensures forall j :: 0 <= j < |blocks| ==>
              blocks[j] == BlockAt(t, minX + (j / TERRAIN_DEPTH) * B.SIZE, j % TERRAIN_DEPTH, renderable)
  {
    blocks := [];
    var curX := minX;
    var c := 0;
    while curX < maxX
      invariant curX == minX + c * B.SIZE
      invariant c <= ColumnCount(minX, maxX)
      invariant curX < maxX ==> c < ColumnCount(minX, maxX)
      invariant |blocks| == c * TERRAIN_DEPTH
      invariant forall j :: 0 <= j < |blocks| ==>
                  blocks[j] == BlockAt(t, minX + (j / TERRAIN_DEPTH) * B.SIZE, j % TERRAIN_DEPTH, renderable)
      decreases maxX - curX
    {
      var column := StackColumn(t, curX, renderable);
      ColumnIndexing(blocks, column, t, minX, c, renderable);
      blocks := blocks + column;
      curX := curX + B.SIZE;
      c := c + 1;
      ColumnsAreExactlyTheSteps(minX, maxX, c);
    }
    ColumnsAreExactlyTheSteps(minX, maxX, c);
  }

  /** The inner loop: the blocks of one column, top to bottom. */
  method StackColumn(t: Terrain, x: int, renderable: Option<R.Renderable>) returns (column: seq<Placed>)
    ensures |column| == TERRAIN_DEPTH
    ensures forall i :: 0 <= i < TERRAIN_DEPTH ==> column[i] == BlockAt(t, x, i, renderable)
  {
    column := [];
    var curY := GroundHeightAt(t, x as real);
    var layer := t.groundLayer;
    var i := 0;
    while i < TERRAIN_DEPTH
      invariant 0 <= i <= TERRAIN_DEPTH
      invariant curY == GroundHeightAt(t, x as real) + (i * B.SIZE) as real
      invariant layer == (if i > 1 then PL.BOTTOM_TERRAIN_LAYER else t.groundLayer)
      invariant |column| == i
      invariant forall k :: 0 <= k < i ==> column[k] == BlockAt(t, x, k, renderable)
    {
      if i > 1 {
        layer := PL.BOTTOM_TERRAIN_LAYER;
      }
      var block := B.Create(Vec(x as real, curY), renderable);
      column := column + [Placed(block.(tag := TERRAIN_TAG), layer)];
      curY := curY + B.SIZE as real;
      i := i + 1;
      layer := if i > 1 then PL.BOTTOM_TERRAIN_LAYER else t.groundLayer;
    }
  }

  /** Appending column c after c full columns keeps the block at index j that of column j / 20, row j % 20. */
  lemma ColumnIndexing(blocks: seq<Placed>, column: seq<Placed>, t: Terrain, minX: int, c: nat,
                       renderable: Option<R.Renderable>)
    requires |blocks| == c * TERRAIN_DEPTH && |column| == TERRAIN_DEPTH
    requires forall j :: 0 <= j < |blocks| ==>
               blocks[j] == BlockAt(t, minX + (j / TERRAIN_DEPTH) * B.SIZE, j % TERRAIN_DEPTH, renderable)
    requires forall i :: 0 <= i < TERRAIN_DEPTH ==> column[i] == BlockAt(t, minX + c * B.SIZE, i, renderable)
    ensures forall j :: 0 <= j < |blocks + column| ==>
              (blocks + column)[j] == BlockAt(t, minX + (j / TERRAIN_DEPTH) * B.SIZE, j % TERRAIN_DEPTH, renderable)
  {
    forall j | 0 <= j < |blocks + column|
      ensures (blocks + column)[j] == BlockAt(t, minX + (j / TERRAIN_DEPTH) * B.SIZE, j % TERRAIN_DEPTH, renderable)
    {
      if j >= |blocks| {
        var i := j - c * TERRAIN_DEPTH;
        assert j == c * TERRAIN_DEPTH + i && 0 <= i < TERRAIN_DEPTH;
        assert j / TERRAIN_DEPTH == c && j % TERRAIN_DEPTH == i;
      }
    }
  }

  /** Every block `createInRange` lays is tagged "terrain", at a column x in [minX, maxX) on the 30-pixel grid from minX. */
  lemma CreatedBlocksInRange(t: Terrain, minX: int, maxX: int, renderable: Option<R.Renderable>, j: nat)
    requires j < ColumnCount(minX, maxX) * TERRAIN_DEPTH
    ensures var p := BlockAt(t, minX + (j / TERRAIN_DEPTH) * B.SIZE, j % TERRAIN_DEPTH, renderable);
            p.block.tag == TERRAIN_TAG
            && minX as real <= p.block.transform.topLeft.x < maxX as real
  {
    var c := j / TERRAIN_DEPTH;
    assert c < ColumnCount(minX, maxX);
    ColumnsAreExactlyTheSteps(minX, maxX, c);
  }
}

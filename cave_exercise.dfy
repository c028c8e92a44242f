/** The cave level: a walled grid of random size whose top and bottom halves
    each receive a row of random-width wall slabs (stalactites above,
    stalagmites below) that together span the columns inside the margin exactly. */
module CaveExercise {
  import opened Random
  import opened Grid

  const MAX_SLAB_WIDTH := 5
  const MARGIN := 1

  /** The direction the actor faces in a cave: the World constructor's default,
      which belongs to the framework. */
  const DEFAULT_FACING := East

  /** A run of `width` wall cells in row `row`, starting at column `x`. */
  datatype Slab = Slab(x: int, width: int, row: int)

  /** Slab k of the sequence spans column x. */
  predicate SlabCovers(slabs: seq<Slab>, k: int, x: int)
  {
    0 <= k < |slabs| && slabs[k].x <= x < slabs[k].x + slabs[k].width
  }

  /** Slab k of the sequence contains cell p. */
  predicate CoveredBy(slabs: seq<Slab>, k: int, p: Position)
  {
    SlabCovers(slabs, k, p.x) && slabs[k].row == p.y
  }

  /** Some slab of the sequence contains cell p. */
  ghost predicate Covered(slabs: seq<Slab>, p: Position)
  {
    exists k :: CoveredBy(slabs, k, p)
  }

  /** The slabs lie side by side, in order, from column `from` up to column
      `to` (exclusive), each at least one cell wide. */
  ghost predicate Tiles(slabs: seq<Slab>, from: int, to: int)
    decreases |slabs|
  {
    if slabs == [] then from == to
    else
      var last := slabs[|slabs| - 1];
      1 <= last.width && last.x + last.width == to && Tiles(slabs[..|slabs| - 1], from, last.x)
  }

  /** The sum of the slab widths. */
  function TotalWidth(slabs: seq<Slab>): int
    decreases |slabs|
  {
    if slabs == [] then 0 else TotalWidth(slabs[..|slabs| - 1]) + slabs[|slabs| - 1].width
  }

  /** A tiling's slab widths add up to the tiled span. */
  lemma {:induction false} TilesWidth(slabs: seq<Slab>, from: int, to: int)
    requires Tiles(slabs, from, to)
    ensures TotalWidth(slabs) == to - from
    decreases |slabs|
  {
    if slabs != [] {
      TilesWidth(slabs[..|slabs| - 1], from, slabs[|slabs| - 1].x);
    }
  }

  /** Every slab of a tiling lies within the span, and each slab ends where
      the next one starts. */
  lemma {:induction false} TilesBounds(slabs: seq<Slab>, from: int, to: int)
    requires Tiles(slabs, from, to)
    ensures from <= to
    ensures forall k :: 0 <= k < |slabs| ==>
      1 <= slabs[k].width && from <= slabs[k].x && slabs[k].x + slabs[k].width <= to
    ensures forall k :: 1 <= k < |slabs| ==> slabs[k - 1].x + slabs[k - 1].width == slabs[k].x
    decreases |slabs|
  {
    if slabs != [] {
      var prefix := slabs[..|slabs| - 1];
      TilesBounds(prefix, from, slabs[|slabs| - 1].x);
      assert forall k :: 0 <= k < |prefix| ==> prefix[k] == slabs[k];
    }
  }

  /** A tiling covers exactly the columns [from, to), each by exactly one slab:
      no gap, no overlap, no excess. */
  lemma {:induction false} TilesPartition(slabs: seq<Slab>, from: int, to: int, x: int)
    requires Tiles(slabs, from, to)
    ensures (from <= x < to) <==> exists k :: SlabCovers(slabs, k, x)
    ensures forall k1, k2 :: SlabCovers(slabs, k1, x) && SlabCovers(slabs, k2, x) ==> k1 == k2
    decreases |slabs|
  {
    if slabs != [] {
      var m := |slabs| - 1;
      var prefix := slabs[..m];
      TilesPartition(prefix, from, slabs[m].x, x);
      TilesBounds(prefix, from, slabs[m].x);
      TilesBounds(slabs, from, to);
      assert forall k :: 0 <= k < m ==> prefix[k] == slabs[k];
      assert forall k :: SlabCovers(prefix, k, x) <==> 0 <= k < m && SlabCovers(slabs, k, x);
      if slabs[m].x <= x < to {
        assert SlabCovers(slabs, m, x);
      }
    }
  }

  /** Adding a slab adds exactly its cells to the covered set. */
  lemma CoveredAppend(slabs: seq<Slab>, s: Slab, p: Position)
    ensures Covered(slabs + [s], p) <==> Covered(slabs, p) || (s.x <= p.x < s.x + s.width && p.y == s.row)
  {
    var longer := slabs + [s];
    if Covered(longer, p) {
      var k :| CoveredBy(longer, k, p);
      if k < |slabs| {
        assert CoveredBy(slabs, k, p);
      }
    }
    if Covered(slabs, p) {
      var k :| CoveredBy(slabs, k, p);
      assert CoveredBy(longer, k, p);
    }
    if s.x <= p.x < s.x + s.width && p.y == s.row {
      assert CoveredBy(longer, |slabs|, p);
    }
  }

  /** One pass of slabs: starting at column 1 + MARGIN with the span inside the margin
      still to cover, repeatedly draws a slab width in [1, min(remaining, 5)]
      and a row in [lowRow, highRow], walls that run, and moves on, until
      nothing remains. */
  method PlaceSlabs(world: World, rng: Rng, lowRow: int, highRow: int) returns (rng': Rng, ghost slabs: seq<Slab>)
    requires world.Valid() && 2 + 2 * MARGIN <= world.width
    requires 0 <= lowRow <= highRow < world.height
    modifies world.tiles
    ensures Tiles(slabs, 1 + MARGIN, world.width - 1 - MARGIN)
    ensures forall k :: 0 <= k < |slabs| ==>
      1 <= slabs[k].width <= MAX_SLAB_WIDTH && lowRow <= slabs[k].row <= highRow
    ensures forall x, y :: 0 <= x < world.width && 0 <= y < world.height ==>
      world.tiles[x, y] == if Covered(slabs, Position(x, y)) then Wall else old(world.tiles[x, y])
    ensures rng' == Skip(rng, 2 * |slabs|)
  {
    var remaining := world.width - 2 - 2 * MARGIN;
    var slabX := 1 + MARGIN;
    rng' := rng;
    slabs := [];
    while remaining != 0
      invariant 0 <= remaining
      invariant (slabX - (1 + MARGIN)) + remaining == world.width - 2 - 2 * MARGIN
      invariant Tiles(slabs, 1 + MARGIN, slabX)
      invariant forall k :: 0 <= k < |slabs| ==>
        1 <= slabs[k].width <= MAX_SLAB_WIDTH && lowRow <= slabs[k].row <= highRow
      invariant forall x, y :: 0 <= x < world.width && 0 <= y < world.height ==>
        world.tiles[x, y] == if Covered(slabs, Position(x, y)) then Wall else old(world.tiles[x, y])
      invariant rng' == Skip(rng, 2 * |slabs|)
      decreases remaining
    {
      var draw := NextRandomInt(rng', 1, Min(remaining, MAX_SLAB_WIDTH));
      var slabWidth := draw.0;
      draw := NextRandomInt(draw.1, lowRow, highRow);
      var slabHeight := draw.0;
      rng' := draw.1;

      label before:
      PlaceWallRow(world, slabX, slabHeight, slabX + slabWidth);

      var slab := Slab(slabX, slabWidth, slabHeight);
      ghost var prev := slabs;
      slabs := slabs + [slab];
      assert slabs[..|slabs| - 1] == prev;
      forall x, y | 0 <= x < world.width && 0 <= y < world.height
        ensures world.tiles[x, y] == if Covered(slabs, Position(x, y)) then Wall else old(world.tiles[x, y])
      {
        CoveredAppend(prev, slab, Position(x, y));
      }
      slabX := slabX + slabWidth;
      remaining := remaining - slabWidth;
    }
  }

  /** The state a generated cave gives cell p. */
  ghost function CaveTile(world: World, ceiling: seq<Slab>, floor: seq<Slab>, p: Position): TileType
  {
    if world.OnBorder(p) || Covered(ceiling, p) || Covered(floor, p) then Wall else Empty
  }

  /** The cave level: width in [30, 40], height in [25, 30], the actor at (1, 1),
      a walled border, a ceiling pass with rows in [2, height / 2 - 1] and a
      floor pass with rows in [height / 2, height - 3]. */
  method Create(rng: Rng) returns (world: World, rng': Rng, ghost ceiling: seq<Slab>, ghost floor: seq<Slab>)
    ensures fresh(world) && fresh(world.tiles) && world.Valid()
    ensures 30 <= world.width <= 40 && 25 <= world.height <= 30
    ensures world.start == Position(1, 1)
    ensures Tiles(ceiling, 1 + MARGIN, world.width - 1 - MARGIN)
    ensures Tiles(floor, 1 + MARGIN, world.width - 1 - MARGIN)
    ensures forall k :: 0 <= k < |ceiling| ==>
      1 <= ceiling[k].width <= MAX_SLAB_WIDTH && 2 <= ceiling[k].row <= world.height / 2 - 1
    ensures forall k :: 0 <= k < |floor| ==>
      1 <= floor[k].width <= MAX_SLAB_WIDTH && world.height / 2 <= floor[k].row <= world.height - 3
    ensures forall i, j :: 0 <= i < |ceiling| && 0 <= j < |floor| ==> ceiling[i].row < floor[j].row
    ensures forall x, y :: 0 <= x < world.width && 0 <= y < world.height ==>
      world.tiles[x, y] == CaveTile(world, ceiling, floor, Position(x, y))
    ensures rng' == Skip(rng, 2 + 2 * |ceiling| + 2 * |floor|)
  {
    var draw := NextRandomInt(rng, 30, 40);
    var width := draw.0;
    draw := NextRandomInt(draw.1, 25, 30);
    var height := draw.0;
    rng' := draw.1;

    world := new World(width, height, Position(1, 1), DEFAULT_FACING);
    EncloseInWalls(world);
    label walled:

    rng', ceiling := PlaceSlabs(world, rng', 2, height / 2 - 1);
    label ceilinged:
    rng', floor := PlaceSlabs(world, rng', height / 2, height - 3);

    forall x, y | 0 <= x < width && 0 <= y < height
      ensures world.tiles[x, y] == CaveTile(world, ceiling, floor, Position(x, y))
    {
      assert old@ceilinged(world.tiles[x, y]) ==
        if Covered(ceiling, Position(x, y)) then Wall else old@walled(world.tiles[x, y]);
    }
  }
}

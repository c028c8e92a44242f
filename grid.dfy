/** The grid both generators write into: a fixed-size map of cell states, the
    actor's start cell and the direction the actor initially faces.
    The framework's World type and the helpers of util/common_worldgen.h are
    not part of this model; the free methods below give them the contracts the
    generators rely on (half-open runs of cells, a walled border). */
module Grid {

  /** A cell coordinate; x grows eastwards, y grows southwards. */
  datatype Position = Position(x: int, y: int)

  datatype Direction = North | South | East | West

  /** Marker is the walkable trail cell (a ball in the framework). */
  datatype TileType = Empty | Wall | Marker

  function Min(a: int, b: int): int { if a <= b then a else b }

  function Max(a: int, b: int): int { if a >= b then a else b }

  /** The neighbouring cell of `p` in direction `d`. */
  function Step(p: Position, d: Direction): Position
  {
    match d
    case East => Position(p.x + 1, p.y)
    case West => Position(p.x - 1, p.y)
    case South => Position(p.x, p.y + 1)
    case North => Position(p.x, p.y - 1)
  }

  class World {
    const width: int
    const height: int
    const start: Position
    const facing: Direction
    const tiles: array2<TileType>

    /** The cell array has the world's dimensions. */
    predicate Valid()
    {
      tiles.Length0 == width && tiles.Length1 == height
    }

    predicate InBounds(p: Position)
    {
      0 <= p.x < width && 0 <= p.y < height
    }

    /** The outer ring of cells. */
    predicate OnBorder(p: Position)
    {
      InBounds(p) && (p.x == 0 || p.x == width - 1 || p.y == 0 || p.y == height - 1)
    }

    /** A world of the given size whose every cell is Empty. */
    constructor (width: nat, height: nat, start: Position, facing: Direction)
      ensures this.width == width && this.height == height
      ensures this.start == start && this.facing == facing
      ensures Valid() && fresh(tiles)
      ensures forall x, y :: 0 <= x < width && 0 <= y < height ==> tiles[x, y] == Empty
    {
      this.width := width;
      this.height := height;
      this.start := start;
      this.facing := facing;
      tiles := new TileType[width, height]((x, y) => Empty);
    }
  }

  /** Sets the cells [x, endX) of row y to `t`; no other cell changes. */
  method FillRow(world: World, x: int, y: int, endX: int, t: TileType)
    requires world.Valid()
    requires 0 <= x <= endX <= world.width && 0 <= y < world.height
    modifies world.tiles
    ensures forall i, j :: 0 <= i < world.width && 0 <= j < world.height ==>
      world.tiles[i, j] == if j == y && x <= i < endX then t else old(world.tiles[i, j])
  {
    var i := x;
    while i < endX
      invariant x <= i <= endX
      invariant forall a, b :: 0 <= a < world.width && 0 <= b < world.height ==>
        world.tiles[a, b] == if b == y && x <= a < i then t else old(world.tiles[a, b])
    {
      world.tiles[i, y] := t;
      i := i + 1;
    }
  }

  /** Sets the cells [y, endY) of column x to `t`; no other cell changes. */
  method FillColumn(world: World, x: int, y: int, endY: int, t: TileType)
    requires world.Valid()
    requires 0 <= x < world.width && 0 <= y <= endY <= world.height
    modifies world.tiles
    ensures forall i, j :: 0 <= i < world.width && 0 <= j < world.height ==>
      world.tiles[i, j] == if i == x && y <= j < endY then t else old(world.tiles[i, j])
  {
    var j := y;
    while j < endY
      invariant y <= j <= endY
      invariant forall a, b :: 0 <= a < world.width && 0 <= b < world.height ==>
        world.tiles[a, b] == if a == x && y <= b < j then t else old(world.tiles[a, b])
    {
      world.tiles[x, j] := t;
      j := j + 1;
    }
  }

  /** Places markers on the cells [x, endX) of row y. */
  method PlaceBallRow(world: World, x: int, y: int, endX: int)
    requires world.Valid()
    requires 0 <= x <= endX <= world.width && 0 <= y < world.height
    modifies world.tiles
    ensures forall i, j :: 0 <= i < world.width && 0 <= j < world.height ==>
      world.tiles[i, j] == if j == y && x <= i < endX then Marker else old(world.tiles[i, j])
  {
    FillRow(world, x, y, endX, Marker);
  }

  /** Places markers on the cells [y, endY) of column x. */
  method PlaceBallColumn(world: World, x: int, y: int, endY: int)
    requires world.Valid()
    requires 0 <= x < world.width && 0 <= y <= endY <= world.height
    modifies world.tiles
    ensures forall i, j :: 0 <= i < world.width && 0 <= j < world.height ==>
      world.tiles[i, j] == if i == x && y <= j < endY then Marker else old(world.tiles[i, j])
  {
    FillColumn(world, x, y, endY, Marker);
  }

  /** Places walls on the cells [x, endX) of row y. */
  method PlaceWallRow(world: World, x: int, y: int, endX: int)
    requires world.Valid()
    requires 0 <= x <= endX <= world.width && 0 <= y < world.height
    modifies world.tiles
    ensures forall i, j :: 0 <= i < world.width && 0 <= j < world.height ==>
      world.tiles[i, j] == if j == y && x <= i < endX then Wall else old(world.tiles[i, j])
  {
    FillRow(world, x, y, endX, Wall);
  }

  /** Turns the outer ring of cells into walls; inner cells keep their state. */
  method EncloseInWalls(world: World)
    requires world.Valid() && 1 <= world.width && 1 <= world.height
    modifies world.tiles
    ensures forall i, j :: 0 <= i < world.width && 0 <= j < world.height ==>
      world.tiles[i, j] == if world.OnBorder(Position(i, j)) then Wall else old(world.tiles[i, j])
  {
    FillRow(world, 0, 0, world.width, Wall);
    FillRow(world, 0, world.height - 1, world.width, Wall);
    FillColumn(world, 0, 0, world.height, Wall);
    FillColumn(world, world.width - 1, 0, world.height, Wall);
  }
}

/** The path level: a random orthogonal polyline of corners inside the grid
    border, accepted only when it has no junctions and ends in a dead end,
    then stamped onto a walled grid as a trail of markers. */
module PathExercise {
  import opened Random
  import opened Grid

  /** Dimensions and minimum segment length of every path level. */
  const WIDTH := 30
  const HEIGHT := 25
  const MIN_SEGMENT := 2

  datatype Option<T> = None | Some(value: T)

  /** Strictly inside the border of a width x height grid. */
  predicate Inside(p: Position, width: int, height: int)
  {
    1 <= p.x <= width - 2 && 1 <= p.y <= height - 2
  }

  // ---------------------------------------------------------------------------
  // Generation
  // ---------------------------------------------------------------------------

  /** Moves `coord` by a drawn length of at least `minSegment` towards the side
      of [1, maxCoord - 2] with more room; a tie goes to the positive side. */
  method ExtendSegment(coord: int, maxCoord: int, minSegment: int, rng: Rng) returns (newCoord: int, rng': Rng)
    requires 1 <= coord <= maxCoord - 2
    requires 0 <= minSegment <= Max(coord - 1, maxCoord - 2 - coord)
    ensures 1 <= newCoord <= maxCoord - 2
    ensures coord - 1 > maxCoord - 2 - coord ==> newCoord <= coord - minSegment
    ensures coord - 1 <= maxCoord - 2 - coord ==> newCoord >= coord + minSegment
    ensures rng' == Skip(rng, 1)
  {
    var negMargin := coord - 1;
    var posMargin := maxCoord - 2 - coord;
    if negMargin > posMargin {
      var draw := NextRandomInt(rng, minSegment, negMargin);
      newCoord, rng' := coord - draw.0, draw.1;
    } else {
      var draw := NextRandomInt(rng, minSegment, posMargin);
      newCoord, rng' := coord + draw.0, draw.1;
    }
  }

  /** A segment along the x axis, at least `minLength` cells long. */
  predicate Horizontal(a: Position, b: Position, minLength: int)
  {
    a.y == b.y && (b.x - a.x >= minLength || a.x - b.x >= minLength)
  }

  /** A segment along the y axis, at least `minLength` cells long. */
  predicate Vertical(a: Position, b: Position, minLength: int)
  {
    a.x == b.x && (b.y - a.y >= minLength || a.y - b.y >= minLength)
  }

  /** The segment drawn while the descending counter has value `counter`:
      horizontal for an even counter, vertical for an odd one. */
  predicate Oriented(a: Position, b: Position, counter: int, minLength: int)
  {
    if counter % 2 == 0 then Horizontal(a, b, minLength) else Vertical(a, b, minLength)
  }

  /** Segment k of the path (from corner k - 1 to corner k) is the one drawn
      with counter value n - k + 1 of a counter that started at n. */
  predicate SegmentDrawn(path: seq<Position>, k: int, n: int, minSegment: int)
  {
    1 <= k < |path| && Oriented(path[k - 1], path[k], n - k + 1, minSegment)
  }

  /** Segment k of a complete path: the counter value it was drawn with is
      |path| - k, the number of segments from k to the end. */
  predicate SegmentOriented(path: seq<Position>, k: int, minSegment: int)
  {
    1 <= k < |path| && Oriented(path[k - 1], path[k], |path| - k, minSegment)
  }

  /** What GeneratePath promises of its result: every corner lies inside the
      border, and every segment has the orientation of its counter value. */
  predicate WellShaped(path: seq<Position>, width: int, height: int, minSegment: int)
  {
    (forall i :: 0 <= i < |path| ==> Inside(path[i], width, height)) &&
    (forall k :: 1 <= k < |path| ==> SegmentOriented(path, k, minSegment))
  }

  /** Segment k of the path changes exactly one coordinate. */
  predicate AxisAligned(path: seq<Position>, k: int)
  {
    1 <= k < |path| && (path[k - 1].x == path[k].x) != (path[k - 1].y == path[k].y)
  }

  /** A candidate path: a start corner drawn inside the border, then n in [5, 9]
      segments with a counter running from n down to 1. */
  method GeneratePath(width: int, height: int, minSegment: int, rng: Rng) returns (path: seq<Position>, rng': Rng)
    requires 3 <= width && 3 <= height
    requires 0 <= minSegment <= (width - 2) / 2 && minSegment <= (height - 2) / 2
    ensures 6 <= |path| <= 10
    ensures WellShaped(path, width, height, minSegment)
    ensures rng' == Skip(rng, 2 + |path|)
  {
    var draw := NextRandomInt(rng, 1, width - 2);
    var pos := Position(draw.0, 0);
    draw := NextRandomInt(draw.1, 1, height - 2);
    pos := pos.(y := draw.0);
    path := [pos];
    draw := NextRandomInt(draw.1, 5, 9);
    var segment := draw.0;
    rng' := draw.1;
    ghost var n := segment;
    while segment > 0
      invariant 0 <= segment <= n
      invariant |path| == n - segment + 1 && path[|path| - 1] == pos
      invariant forall i :: 0 <= i < |path| ==> Inside(path[i], width, height)
      invariant forall k :: 1 <= k < |path| ==> SegmentDrawn(path, k, n, minSegment)
      invariant rng' == Skip(rng, 3 + n - segment)
    {
      if segment % 2 == 0 {
        var x;
        x, rng' := ExtendSegment(pos.x, width, minSegment, rng');
        pos := pos.(x := x);
      } else {
        var y;
        y, rng' := ExtendSegment(pos.y, height, minSegment, rng');
        pos := pos.(y := y);
      }
      ghost var prev := path;
      path := path + [pos];
      forall k | 1 <= k < |prev|
        ensures SegmentDrawn(path, k, n, minSegment)
      {
        assert SegmentDrawn(prev, k, n, minSegment);
        assert path[k - 1] == prev[k - 1] && path[k] == prev[k];
      }
      assert SegmentDrawn(path, |prev|, n, minSegment);
      segment := segment - 1;
    }
    forall k | 1 <= k < |path|
      ensures SegmentOriented(path, k, minSegment)
    {
      assert SegmentDrawn(path, k, n, minSegment);
    }
  }

  /** With segments of at least one cell, every segment of a generated path
      changes exactly one coordinate. */
  lemma SegmentsAreAxisAligned(path: seq<Position>, width: int, height: int, minSegment: int, k: int)
    requires WellShaped(path, width, height, minSegment) && 1 <= minSegment
    requires 1 <= k < |path|
    ensures AxisAligned(path, k)
  {
    assert SegmentOriented(path, k, minSegment);
  }

  /** Orientations strictly alternate: segment k is horizontal exactly when
      segment k + 1 is vertical. */
  lemma OrientationsAlternate(path: seq<Position>, width: int, height: int, minSegment: int, k: int)
    requires WellShaped(path, width, height, minSegment) && 1 <= minSegment
    requires 1 <= k < |path| - 1
    ensures (path[k - 1].y == path[k].y) != (path[k].y == path[k + 1].y)
  {
    assert SegmentOriented(path, k, minSegment);
    assert SegmentOriented(path, k + 1, minSegment);
  }

  /** The first segment is horizontal exactly when the number of segments (the
      counter's first value) is even; it is not always vertical. */
  lemma FirstSegmentOrientation(path: seq<Position>, width: int, height: int, minSegment: int)
    requires WellShaped(path, width, height, minSegment) && 1 <= minSegment
    requires 2 <= |path|
    ensures (path[0].y == path[1].y) <==> (|path| - 1) % 2 == 0
  {
    assert SegmentOriented(path, 1, minSegment);
  }

  // ---------------------------------------------------------------------------
  // Topology
  // ---------------------------------------------------------------------------

  /** `pos` lies in the bounding box of the segment (start, end): on each axis
      its coordinate lies between the two endpoints', in either order. */
  function SegmentIntersects(pos: Position, start: Position, end: Position): (r: bool)
    ensures r <==>
      (start.x <= pos.x <= end.x || end.x <= pos.x <= start.x) &&
      (start.y <= pos.y <= end.y || end.y <= pos.y <= start.y)
  {
    Min(start.x, end.x) <= pos.x <= Max(start.x, end.x) &&
    Min(start.y, end.y) <= pos.y <= Max(start.y, end.y)
  }

  /** Membership does not depend on the order of the endpoints, and both
      endpoints belong to their segment. */
  lemma SegmentIntersectsSymmetric(pos: Position, start: Position, end: Position)
    ensures SegmentIntersects(pos, start, end) == SegmentIntersects(pos, end, start)
    ensures SegmentIntersects(start, start, end) && SegmentIntersects(end, start, end)
  {
  }

  /** The cell `t` steps from `a` in direction `d`. */
  function Walk(a: Position, d: Direction, t: int): Position
  {
    match d
    case East => Position(a.x + t, a.y)
    case West => Position(a.x - t, a.y)
    case South => Position(a.x, a.y + t)
    case North => Position(a.x, a.y - t)
  }

  /** Number of steps from a to b along an axis-aligned segment. */
  function Length(a: Position, b: Position): nat
  {
    (if a.x <= b.x then b.x - a.x else a.x - b.x) + (if a.y <= b.y then b.y - a.y else a.y - b.y)
  }

  /** For an axis-aligned segment the bounding box is exactly the set of cells
      met walking from start to end in the segment's direction. */
  lemma SegmentIntersectsIsWalk(pos: Position, a: Position, b: Position)
    requires (a.x == b.x) != (a.y == b.y)
    ensures SegmentIntersects(pos, a, b) <==>
      exists t :: 0 <= t <= Length(a, b) && pos == Walk(a, GetSegmentDirection(a, b), t)
  {
    var d := GetSegmentDirection(a, b);
    if SegmentIntersects(pos, a, b) {
      var t := Length(a, pos);
      assert pos == Walk(a, d, t);
    }
  }

  /** `pos` lies on segment j of the path, from corner j - 1 to corner j. */
  predicate OnSegment(path: seq<Position>, j: int, pos: Position)
  {
    1 <= j < |path| && SegmentIntersects(pos, path[j - 1], path[j])
  }

  /** Whether `pos` lies on a segment (path[j - 1], path[j]) with j >= i. */
  function IntersectsFrom(path: seq<Position>, pos: Position, i: nat): (r: bool)
    requires 1 <= i
    ensures r <==> exists j :: i <= j && OnSegment(path, j, pos)
    decreases |path| - i
  {
    if i >= |path| then false
    else OnSegment(path, i, pos) || IntersectsFrom(path, pos, i + 1)
  }

  /** Whether `pos` lies on any segment of the path. */
  function PathIntersects(path: seq<Position>, pos: Position): (r: bool)
    ensures r <==> exists j :: OnSegment(path, j, pos)
  {
    IntersectsFrom(path, pos, 1)
  }

  /** Extending a path prefix by one corner adds exactly that segment's cells. */
  lemma PathIntersectsExtend(path: seq<Position>, i: int, pos: Position)
    requires 1 <= i < |path|
    ensures PathIntersects(path[..i + 1], pos) <==>
      PathIntersects(path[..i], pos) || SegmentIntersects(pos, path[i - 1], path[i])
  {
    var longer, shorter := path[..i + 1], path[..i];
    if PathIntersects(longer, pos) && !SegmentIntersects(pos, path[i - 1], path[i]) {
      var j :| OnSegment(longer, j, pos);
      assert j < i && shorter[j - 1] == longer[j - 1] && shorter[j] == longer[j];
      assert OnSegment(shorter, j, pos);
    }
    if PathIntersects(shorter, pos) {
      var j :| OnSegment(shorter, j, pos);
      assert shorter[j - 1] == longer[j - 1] && shorter[j] == longer[j];
      assert OnSegment(longer, j, pos);
    }
    if SegmentIntersects(pos, path[i - 1], path[i]) {
      assert longer[i - 1] == path[i - 1] && longer[i] == path[i];
      assert OnSegment(longer, i, pos);
    }
  }

  /** The directions from `pos` whose neighbouring cell lies on the path. */
  function TouchingDirections(path: seq<Position>, pos: Position): set<Direction>
  {
    set d: Direction | d in {North, South, East, West} && PathIntersects(path, Step(pos, d))
  }

  /** In how many directions the path continues from `pos`. */
  function GetPossibleDirections(path: seq<Position>, pos: Position): (r: int)
    ensures 0 <= r <= 4
    ensures r == |TouchingDirections(path, pos)|
  {
    var east := PathIntersects(path, Position(pos.x + 1, pos.y));
    var west := PathIntersects(path, Position(pos.x - 1, pos.y));
    var south := PathIntersects(path, Position(pos.x, pos.y + 1));
    var north := PathIntersects(path, Position(pos.x, pos.y - 1));
    var touching := TouchingDirections(path, pos);
    assert (East in touching) == east && (West in touching) == west;
    assert (South in touching) == south && (North in touching) == north;
    CountDirections(touching, east, west, south, north);
    (if east then 1 else 0) + (if west then 1 else 0) + (if south then 1 else 0) + (if north then 1 else 0)
  }

  /** A set of directions has as many elements as the four membership tests
      that hold. */
  lemma CountDirections(t: set<Direction>, east: bool, west: bool, south: bool, north: bool)
    requires (East in t) == east && (West in t) == west
    requires (South in t) == south && (North in t) == north
    ensures |t| == (if east then 1 else 0) + (if west then 1 else 0) + (if south then 1 else 0) + (if north then 1 else 0)
  {
    var t1 := t - {East};
    var t2 := t1 - {West};
    var t3 := t2 - {South};
    var t4 := t3 - {North};
    assert |t| == |t1| + (if east then 1 else 0);
    assert |t1| == |t2| + (if west then 1 else 0);
    assert |t2| == |t3| + (if south then 1 else 0);
    assert |t3| == |t4| + (if north then 1 else 0);
    forall d: Direction
      ensures d !in t4
    {
      match d
      case East =>
      case West =>
      case South =>
      case North =>
    }
    assert t4 == {};
  }

  /** Whether no corner from index i onwards touches the path in more than
      two directions. */
  function NoJunctionsFrom(path: seq<Position>, i: nat): (r: bool)
    ensures r <==> forall j :: i <= j < |path| ==> GetPossibleDirections(path, path[j]) <= 2
    decreases |path| - i
  {
    if i >= |path| then true
    else GetPossibleDirections(path, path[i]) <= 2 && NoJunctionsFrom(path, i + 1)
  }

  /** A path is valid when no corner has a T-junction or crossing (at most two
      touching directions) and the last corner is a dead end (exactly one). */
  function IsValidPath(path: seq<Position>): (r: bool)
    requires |path| > 0
    ensures r <==>
      (forall j :: 0 <= j < |path| ==> |TouchingDirections(path, path[j])| <= 2) &&
      |TouchingDirections(path, path[|path| - 1])| == 1
  {
    NoJunctionsFrom(path, 0) && GetPossibleDirections(path, path[|path| - 1]) == 1
  }

  /** The direction from a to b, which must differ in exactly one coordinate. */
  function GetSegmentDirection(a: Position, b: Position): (d: Direction)
    requires (a.x == b.x) != (a.y == b.y)
    ensures d == East <==> b.x > a.x
    ensures d == West <==> b.x < a.x
    ensures d == South <==> b.y > a.y
    ensures d == North <==> b.y < a.y
  {
    var dx := a.x - b.x;
    var dy := a.y - b.y;
    if dx != 0 then (if dx < 0 then East else West)
    else (if dy < 0 then South else North)
  }

  /** Walking the segment's length in its direction from the start reaches the end. */
  lemma SegmentDirectionReachesEnd(a: Position, b: Position)
    requires (a.x == b.x) != (a.y == b.y)
    ensures Walk(a, GetSegmentDirection(a, b), Length(a, b)) == b
  {
  }

  // ---------------------------------------------------------------------------
  // Rendering
  // ---------------------------------------------------------------------------

  /** Marks every cell of the segment (start, end), both ends included. */
  method ConnectPathSegment(world: World, start: Position, end: Position)
    requires world.Valid() && world.InBounds(start) && world.InBounds(end)
    requires (start.x == end.x) != (start.y == end.y)
    modifies world.tiles
    ensures forall x, y :: 0 <= x < world.width && 0 <= y < world.height ==>
      world.tiles[x, y] == if SegmentIntersects(Position(x, y), start, end) then Marker else old(world.tiles[x, y])
  {
    var dir := GetSegmentDirection(start, end);
    if dir == East {
      PlaceBallRow(world, start.x, start.y, end.x + 1);
    } else if dir == West {
      PlaceBallRow(world, end.x, end.y, start.x + 1);
    } else if dir == North {
      PlaceBallColumn(world, end.x, end.y, start.y + 1);
    } else if dir == South {
      PlaceBallColumn(world, start.x, start.y, end.y + 1);
    }
  }

  /** The state a rendered path level gives cell p. */
  function RenderedTile(world: World, path: seq<Position>, p: Position): TileType
  {
    if world.OnBorder(p) then Wall else if PathIntersects(path, p) then Marker else Empty
  }

  /** Every cell of the world is a wall on the border, a marker on the path and
      empty elsewhere. */
  ghost predicate Rendered(world: World, path: seq<Position>)
    reads world.tiles
    requires world.Valid()
  {
    forall x, y :: 0 <= x < world.width && 0 <= y < world.height ==>
      world.tiles[x, y] == RenderedTile(world, path, Position(x, y))
  }

  /** Builds the world for an accepted path: the actor at the first corner,
      facing along the first segment, a walled border, and every segment
      stamped in order. */
  method Render(path: seq<Position>, width: int, height: int) returns (world: World)
    requires 3 <= width && 3 <= height && 2 <= |path|
    requires forall i :: 0 <= i < |path| ==> Inside(path[i], width, height)
    requires forall k :: 1 <= k < |path| ==> AxisAligned(path, k)
    ensures fresh(world) && fresh(world.tiles) && world.Valid()
    ensures world.width == width && world.height == height
    ensures world.start == path[0]
    ensures AxisAligned(path, 1) && world.facing == GetSegmentDirection(path[0], path[1])
    ensures Rendered(world, path)
  {
    assert AxisAligned(path, 1);
    var initialDirection := GetSegmentDirection(path[0], path[1]);
    world := new World(width, height, path[0], initialDirection);
    EncloseInWalls(world);
    forall x, y | 0 <= x < width && 0 <= y < height
      ensures world.tiles[x, y] == RenderedTile(world, path[..1], Position(x, y))
    {
      assert !PathIntersects(path[..1], Position(x, y));
    }
    var i := 1;
    while i < |path|
      invariant 1 <= i <= |path|
      invariant Rendered(world, path[..i])
    {
      assert Inside(path[i - 1], width, height) && Inside(path[i], width, height) && AxisAligned(path, i);
      label before:
      ConnectPathSegment(world, path[i - 1], path[i]);
      forall x, y | 0 <= x < width && 0 <= y < height
        ensures world.tiles[x, y] == RenderedTile(world, path[..i + 1], Position(x, y))
      {
        assert old@before(world.tiles[x, y]) == RenderedTile(world, path[..i], Position(x, y));
        RenderedTileExtend(world, path, i, Position(x, y));
      }
      i := i + 1;
    }
    assert path[..i] == path;
  }

  /** Stamping segment i onto a world rendered up to corner i - 1 gives the
      world rendered up to corner i: the segment's cells become markers and,
      since the segment lies inside the border, no wall is overwritten. */
  lemma RenderedTileExtend(world: World, path: seq<Position>, i: int, p: Position)
    requires 1 <= i < |path| && world.InBounds(p)
    requires Inside(path[i - 1], world.width, world.height) && Inside(path[i], world.width, world.height)
    ensures RenderedTile(world, path[..i + 1], p) ==
      if SegmentIntersects(p, path[i - 1], path[i]) then Marker else RenderedTile(world, path[..i], p)
  {
    PathIntersectsExtend(path, i, p);
  }

  /** A drawn candidate: 6 to 10 corners, well shaped. */
  predicate Candidate(c: seq<Position>, width: int, height: int, minSegment: int)
  {
    6 <= |c| <= 10 && WellShaped(c, width, height, minSegment)
  }

  /** A candidate that the validity test refuses. */
  predicate Rejected(c: seq<Position>)
  {
    |c| > 0 && !IsValidPath(c)
  }

  /** A candidate that the validity test accepts. */
  predicate Accepted(c: seq<Position>)
  {
    |c| > 0 && IsValidPath(c)
  }

  /** The number of stream values consumed by drawing the candidates `tried`:
      each candidate takes two draws for its start corner, one for its segment
      count and one per segment. */
  function DrawsUsed(tried: seq<seq<Position>>): nat
    decreases |tried|
  {
    if tried == [] then 0 else DrawsUsed(tried[..|tried| - 1]) + 2 + |tried[|tried| - 1]|
  }

  /** Draws candidate paths until one is valid, giving up after `attempts`
      candidates. `tried` records the candidates drawn, in order: all but the
      last are invalid, the result is the last one when it is valid, and
      nothing is found only when every attempt was used. */
  method GenerateValidPath(width: int, height: int, minSegment: int, rng: Rng, attempts: nat)
    returns (result: Option<seq<Position>>, rng': Rng, ghost tried: seq<seq<Position>>)
    requires 3 <= width && 3 <= height
    requires 0 <= minSegment <= (width - 2) / 2 && minSegment <= (height - 2) / 2
    ensures result.Some? ==> Candidate(result.value, width, height, minSegment) && Accepted(result.value)
    ensures attempts == 0 ==> result == None
    ensures rng'.stream == rng.stream && rng.cursor <= rng'.cursor
    ensures |tried| <= attempts
    ensures forall i :: 0 <= i < |tried| ==> Candidate(tried[i], width, height, minSegment)
    ensures forall i :: 0 <= i < |tried| - 1 ==> Rejected(tried[i])
    ensures result.Some? <==> |tried| > 0 && Accepted(tried[|tried| - 1])
    ensures result.Some? ==> result.value == tried[|tried| - 1]
    ensures result.None? ==> |tried| == attempts
    ensures rng' == Skip(rng, DrawsUsed(tried))
  {
    rng' := rng;
    tried := [];
    var tries := 0;
    while tries < attempts
      invariant 0 <= tries <= attempts && |tried| == tries
      invariant forall i :: 0 <= i < |tried| ==> Candidate(tried[i], width, height, minSegment)
      invariant forall i :: 0 <= i < |tried| ==> Rejected(tried[i])
      invariant rng' == Skip(rng, DrawsUsed(tried))
    {
      var candidate;
      ghost var before := tried;
      candidate, rng' := GeneratePath(width, height, minSegment, rng');
      tried := tried + [candidate];
      assert tried[..|tried| - 1] == before;
      if IsValidPath(candidate) {
        return Some(candidate), rng', tried;
      }
      tries := tries + 1;
    }
    result := None;
  }

  /** The path level: a valid path on a 30 x 25 grid with segments of at least
      two cells, rendered; None exactly when all `attempts` candidates were
      invalid. */
  method Create(rng: Rng, attempts: nat)
    returns (result: Option<World>, ghost path: seq<Position>, rng': Rng, ghost tried: seq<seq<Position>>)
    ensures |tried| <= attempts
    ensures forall i :: 0 <= i < |tried| ==> Candidate(tried[i], WIDTH, HEIGHT, MIN_SEGMENT)
    ensures forall i :: 0 <= i < |tried| - 1 ==> Rejected(tried[i])
    ensures result.Some? <==> |tried| > 0 && Accepted(tried[|tried| - 1])
    ensures result.None? ==> |tried| == attempts
    ensures rng' == Skip(rng, DrawsUsed(tried))
    ensures result.Some? ==> path == tried[|tried| - 1]
    ensures result.Some? ==> fresh(result.value) && result.value.Valid()
    ensures result.Some? ==> result.value.width == WIDTH && result.value.height == HEIGHT
    ensures result.Some? ==> 6 <= |path| <= 10 && IsValidPath(path) && WellShaped(path, WIDTH, HEIGHT, MIN_SEGMENT)
    ensures result.Some? ==> result.value.start == path[0] && Rendered(result.value, path)
    ensures result.Some? ==>
      (path[0].x == path[1].x) != (path[0].y == path[1].y) &&
      result.value.facing == GetSegmentDirection(path[0], path[1])
  {
    var found;
    found, rng', tried := GenerateValidPath(WIDTH, HEIGHT, MIN_SEGMENT, rng, attempts);
    if found.None? {
      return None, [], rng', tried;
    }
    var accepted := found.value;
    path := accepted;
    forall k | 1 <= k < |accepted|
      ensures AxisAligned(accepted, k)
    {
      SegmentsAreAxisAligned(accepted, WIDTH, HEIGHT, MIN_SEGMENT, k);
    }
    var world := Render(accepted, WIDTH, HEIGHT);
    result := Some(world);
  }
}

# Procedural level generator: path and cave levels

This project is a Dafny model of the level generator of a grid-world navigation
exercise (`assignments/assignment2.h`). The generator has two independent parts:

* **Path level** (`PathExercise`). It draws a start corner strictly inside the
  border, then n ∈ [5, 9] segments. A counter runs from n down to 1: an even
  value extends the x coordinate and an odd value extends y. Each time, the
  coordinate moves towards the side with more room, by a drawn length of at
  least `MIN_SEGMENT`. A candidate is accepted when no corner touches the path
  in more than two of its four neighbouring directions and the last corner
  touches it in exactly one. "Touching" means the neighbour lies in the
  bounding box of some segment. Candidates are drawn until one is accepted.
  The 30 × 25 world is then built: the actor stands on the first corner and
  faces along the first segment, the border is walled, and every segment is
  stamped, both ends included, as a trail of markers.
* **Cave level** (`CaveExercise`). It draws a width in [30, 40] and a height in
  [25, 30] and walls the border. It then makes two passes, stalactites and
  stalagmites. Each pass lays slabs side by side from column 2. Every slab has
  a drawn width in [1, min(remaining, 5)] and sits at a drawn row: in
  [2, height/2 − 1] for the ceiling pass and in [height/2, height − 3] for the
  floor pass. A pass stops when the remaining span reaches 0.

Modules:

* `Random` (`random.dfy`): the random source. It is an arbitrary integer
  stream plus a cursor. A draw for [lo, hi] reduces the next stream value into
  that range. So every draw is in range, and every in-range value is possible
  (`DrawCanBeAnything`). The framework's random generator and its seeds are
  not part of this model. Because the source is passed explicitly, each
  generator is a function of the stream it receives.
* `Grid` (`grid.dfy`): positions, the four directions (y grows southwards),
  the cell states `Empty`, `Wall` and `Marker` (a ball in the framework), and
  the `World` class. A `World` has a fixed size, a start cell, a facing and an
  `array2` of cells. The helpers that write rows, columns and the border are
  given the contracts the generator relies on: half-open runs `[x, endX)` and a
  walled outer ring. The framework's own `World` and `util/common_worldgen.h`
  are not part of this model.
* `PathExercise` (`path_exercise.dfy`): generation, topology, validation and
  rendering of the path level.
* `CaveExercise` (`cave_exercise.dfy`): the slab passes and the cave level.

Three places where the implementation differs from what one might read into
its description (the model follows the code):

* The tiled span is `width − 2 − 2·MARGIN` = width − 4 columns, starting at
  x = 2: the columns inside the margin, [2, width − 2) (`assignments/assignment2.h:192-193`).
* The first segment is not always vertical. Its orientation is that of the
  counter's first value n: horizontal exactly when n is even
  (`FirstSegmentOrientation`).
* The ceiling and floor row ranges are disjoint and adjacent (height/2 − 1 and
  height/2). In every column the ceiling wall lies strictly above the floor
  wall, but an empty cell between them is not guaranteed.

## Model

| member | source | states |
|---|---|---|
| `Random.NextRandomInt` | assignments/assignment2.h:70-71 | a draw for [lo, hi] (lo ≤ hi) lies in [lo, hi] and consumes exactly one stream value |
| `Random.DrawCanBeAnything` | assignments/assignment2.h:70-71 | every value of [lo, hi] is the outcome of a draw for some stream, so the model covers every in-range behaviour of the random source |
| `Grid.World.constructor` | assignments/assignment2.h:40 | a new world has the given size, start cell and facing, and every cell is Empty |
| `Grid.EncloseInWalls` | assignments/assignment2.h:42 | border cells become Wall; no other cell changes |
| `Grid.PlaceBallRow` | assignments/assignment2.h:163-165 | the cells [x, endX) of row y become Marker; no other cell changes |
| `Grid.PlaceBallColumn` | assignments/assignment2.h:167-169 | the cells [y, endY) of column x become Marker; no other cell changes |
| `Grid.PlaceWallRow` | assignments/assignment2.h:199 | the cells [x, endX) of row y become Wall; no other cell changes |
| `PathExercise.ExtendSegment` | assignments/assignment2.h:52-63 | for coord in [1, maxCoord−2] and a non-empty draw range [minSegment, roomier margin], the new coordinate stays in [1, maxCoord−2]; it moves towards the negative side by at least minSegment when coord−1 > maxCoord−2−coord, and otherwise towards the positive side (ties go positive); one draw is consumed |
| `PathExercise.GeneratePath` | assignments/assignment2.h:65-91 | the path has n+1 corners with n in [5, 9]; every corner lies in [1, width−2]×[1, height−2]; segment k changes x (when its counter value, the number of corners minus k, is even) or y (when odd) by at least minSegment and leaves the other coordinate unchanged; two draws more than the number of corners are consumed |
| `PathExercise.SegmentsAreAxisAligned` | assignments/assignment2.h:76-87 | with minSegment ≥ 1, consecutive corners of a generated path differ in exactly one coordinate |
| `PathExercise.OrientationsAlternate` | assignments/assignment2.h:76-87 | consecutive segments of a generated path have opposite orientations |
| `PathExercise.FirstSegmentOrientation` | assignments/assignment2.h:76-87 | the first segment of a generated path is horizontal exactly when the number of segments is even |
| `PathExercise.SegmentIntersects` | assignments/assignment2.h:94-101 | inclusive bounding-box membership: on each axis the position's coordinate lies between the two endpoints' coordinates, in either order |
| `PathExercise.SegmentIntersectsSymmetric` | assignments/assignment2.h:94-101 | segment membership does not depend on the order of the endpoints, and both endpoints are members |
| `PathExercise.SegmentIntersectsIsWalk` | assignments/assignment2.h:94-101 | for an axis-aligned segment, the bounding box is exactly the set of cells met walking from start to end in the segment's direction |
| `PathExercise.IntersectsFrom` | assignments/assignment2.h:104-112 | the scan from segment i is true exactly when some segment j ≥ i contains the position |
| `PathExercise.PathIntersects` | assignments/assignment2.h:104-112 | a position intersects the path exactly when some consecutive pair's bounding box contains it |
| `PathExercise.PathIntersectsExtend` | assignments/assignment2.h:104-112 | the prefix up to corner i intersects a position exactly when the prefix up to corner i−1 does or segment i contains it |
| `PathExercise.GetPossibleDirections` | assignments/assignment2.h:115-124 | the count lies in [0, 4] and equals the number of distinct directions whose neighbouring cell lies on the path |
| `PathExercise.CountDirections` | assignments/assignment2.h:115-124 | a set of directions has as many elements as the four membership tests that hold |
| `PathExercise.NoJunctionsFrom` | assignments/assignment2.h:129-133 | the corner scan from index i succeeds exactly when no corner from i onwards has more than 2 touching directions |
| `PathExercise.IsValidPath` | assignments/assignment2.h:127-137 | a path is valid exactly when every corner has at most 2 touching directions and the last corner has exactly 1 |
| `PathExercise.GetSegmentDirection` | assignments/assignment2.h:140-152 | for corners differing in exactly one coordinate: East exactly when b.x > a.x, West exactly when b.x < a.x, South exactly when b.y > a.y, North exactly when b.y < a.y |
| `PathExercise.SegmentDirectionReachesEnd` | assignments/assignment2.h:140-152 | walking the segment's length in its direction from the start arrives at the end |
| `PathExercise.ConnectPathSegment` | assignments/assignment2.h:155-171 | exactly the cells of the segment's bounding box, both ends included, become Marker; every other cell keeps its state |
| `PathExercise.RenderedTileExtend` | assignments/assignment2.h:44-46 | stamping segment i onto a world rendered up to corner i−1 yields the world rendered up to corner i; the border is never overwritten because corners lie inside it |
| `PathExercise.Render` | assignments/assignment2.h:36-48 | the world has the given size; the actor starts at the first corner, facing along the first segment; every cell is Wall on the border, Marker on the path and Empty elsewhere |
| `PathExercise.GenerateValidPath` | assignments/assignment2.h:31-34 | a returned path is accepted by IsValidPath and keeps every generation property; at most `attempts` candidates are drawn, each with 6 to 10 corners and every generation property; every candidate before the last is refused by IsValidPath; a path is returned exactly when the last candidate is accepted, and it is that candidate; no path means every attempt was used; the source advances by exactly the draws of the candidates |
| `PathExercise.Create` | assignments/assignment2.h:23-49 | the retry facts of GenerateValidPath for a 30 × 25 grid with segments of at least 2 cells: a world exactly when the last candidate is accepted, none only when every attempt was refused; on success, a fresh 30 × 25 world rendered from that candidate, with the actor on its first corner facing along its first segment |
| `CaveExercise.TilesWidth` | assignments/assignment2.h:192-210 | the slab widths of a tiling add up to the tiled span |
| `CaveExercise.TilesBounds` | assignments/assignment2.h:192-210 | every slab of a tiling is at least one cell wide and lies inside the span, and each slab ends where the next one begins |
| `CaveExercise.TilesPartition` | assignments/assignment2.h:192-231 | a column is covered by some slab exactly when it lies in the span, and never by two slabs (no gap, no overlap, no excess) |
| `CaveExercise.CoveredAppend` | assignments/assignment2.h:199 | laying one more slab adds exactly that slab's cells to the covered cells |
| `CaveExercise.PlaceSlabs` | assignments/assignment2.h:192-231 | one pass keeps (slabX − 2) + remaining == width − 4 and terminates; its slabs tile [2, width − 2); every width is in [1, 5] and every row in the pass's range; exactly the slabs' cells become Wall |
| `CaveExercise.Create` | assignments/assignment2.h:180-234 | width in [30, 40] and height in [25, 30]; the actor at (1, 1); ceiling and floor passes tile [2, width − 2); ceiling rows in [2, height/2 − 1] lie strictly above floor rows in [height/2, height − 3]; every cell is Wall on the border or on a slab and Empty elsewhere |

## Left out

- Termination of the unbounded `do … while (!IsValidPath(path))` retry (assignments/assignment2.h:32-34): `GenerateValidPath` and `PathExercise.Create` take an attempt budget and return `None` exactly when every attempt was refused, so the model makes no claim that a valid path is eventually found.
- Determinism for identical seeds is not stated as a lemma: the model's methods contain no nondeterministic choice and take the random stream as input, so their outcome is fixed by the stream.
- The framework's random generator, the exercise seeds and the uniform distribution of draws: only the range of each draw is modelled.
- The framework's `World`, `EncloseInWalls`, `PlaceBallRow`, `PlaceBallColumn` and `PlaceWallRow`. They are modelled by the contracts stated above, over an abstract cell array in which a ball is the `Marker` state; ball counts and rendering are not modelled.
- `CaveExercise.Create`: the facing given by the framework's three-argument `World` constructor is a framework default. The model passes `DEFAULT_FACING` (East) and states nothing about it.
- `PathExercise.ExtendSegment`: requires minSegment ≥ 0. The level always uses 2, and a negative minimum would let a draw move the coordinate backwards out of the interior.
- `PathExercise.GeneratePath`: requires minSegment ≤ (width − 2)/2 and ≤ (height − 2)/2. This is the weakest condition under which every reachable coordinate has a non-empty draw range on its roomier side. The level's constants (30, 25, 2) meet it, and the call in `PathExercise.Create` is verified to meet it.
- That the markers of a rendered path level form exactly one contiguous trail is not stated as a lemma. The model states the rendered cell set (the union of the segments' boxes) instead.
- The `Assignment2` menu and agent registration, `CREATE_ASSIGNMENT`, the `#if 0` corner debugging and the `DEBUG_CAVE_EXERCISE` ball fill: UI wiring and disabled code.
- `agent.cpp`: scripted actor choreography against a framework API that is not part of this model.

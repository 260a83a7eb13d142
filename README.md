# Pepse world logic in Dafny

Pepse is a 2-D side-scroller built on the danogl engine. This project models the
deterministic logic under the engine objects and proves properties about it:

- **Terrain** (`terrain.dfy`): the terrain rasteriser. `createInRange` snaps an x-range
  to the 30-pixel grid and emits one column of stacked ground blocks per grid x;
  `fillBlockColumn` builds one column. The Java truncating `/` and `(int) Math.ceil`
  are written out in `javamath.dfy`.
- **Tree** (`tree.dfy`): a tree's trunk and its 7 x 7 tree top of leaves and fruits.
  The top is decided by seeded draws keyed by `i + j`, and each row's inner loop
  breaks at the first "nothing".
- **Flora** (`flora.dfy`): the planter. It plants a tree at each candidate x whose
  seeded draw is 1 and keeps every tree it has planted in its `trees` field.
- **PepseGameManager** (`game_manager.dfy`): the infinite-world window. There are two
  edges two windows apart. A frame whose avatar x passes a threshold generates the
  next terrain strip, evicts world objects outside the edges and moves both edges
  by `extraWorld`.
- **Avatar** (`avatar.dfy`): the energy rules. Walking costs 0.5, jumping 10, idling
  regains 1 and a fruit gives 10; regain is tested against the maximum only before
  adding. `shouldCollideWith` is the tag test.
- **Fruit** (`fruit.dfy`): the one-shot `ateMe` flag, set by the avatar's contact
  and cleared by `resetFruit`.

Shared pieces: `constants.dfy` holds BLOCK_SIZE = 30, TREE_TRUNK_HEIGHT = 180,
TREE_TOP_SIZE = 210, PORTABILITY_BOUND = 11 and the tags. `scene.dfy` reduces a
game object to its tag, top-left corner and dimensions.

Foreign code becomes parameters:
- The noise of `NoiseGenerator` is a function `noise: int -> real` inside the terrain.
- `new Random(Objects.hash(k, seed)).nextInt(11)` is a function `rng: (int, int) -> Draw`,
  with `Draw` the integers 0 .. 10.
- Key presses, the avatar's x and the vertical velocity set by the physics engine are
  method parameters.

Positions and energies are exact `real`s. They stand for Java `float`s, whose
rounding does not matter at these magnitudes: all amounts are multiples of 0.5.

What the code does that a reader might not expect:
- Eviction uses the edges as they were before the shift (`removeUnseenObjects` runs
  before the edges move), not the shifted edges.
- A shift generates terrain only. Flora is planted once, for `[0, windowWidth)`,
  at initialisation.
- `createInRange` snaps `minX` with Java's truncating division, so a negative `minX`
  rounds toward zero (-500 becomes -480), not down.
- The initial edges are `-0.5 * width` and `1.5 * width`, so the window is
  two widths wide.
- A planted tree's trunk stands at the unsnapped ground height `groundHeightAt(x)`.
  The grid-snapped `bottomLeftY` that `Flora.createInRange` computes is never used.

The engine's object collection is modelled as a sequence `scene`. Objects added
while a frame runs wait in `pending` and join the scene when the frame ends, after
that frame's eviction pass. With immediate addition instead, the eviction at
pre-shift edges would remove the part of the new strip beyond the old right edge.
This reading is an assumption about the engine (see "## Left out").

The ground does not always reach the left edge. The initial terrain starts at the
snap of the truncated left edge, which lies right of a negative, off-grid edge. For
a 1000-pixel window the strip [-500, -480) has no ground (`InitialTerrainLeftGap`).

## Model

| member | source | states |
|---|---|---|
| `JavaMath.TruncDiv` | pepse/world/Terrain.java:62 | Java's `/` for a positive divisor: the quotient rounds toward zero, bracketing the dividend from below for non-negative and from above for negative values |
| `JavaMath.CeilDiv` | pepse/world/Terrain.java:63 | `(int) Math.ceil((double) a / b)`: the least multiple count not below `a` |
| `JavaMath.Ceil` | pepse/PepseGameManager.java:142 | `(int) Math.ceil(r)` is the least integer not below `r` |
| `JavaMath.Trunc` | pepse/PepseGameManager.java:152 | the `(int)` cast of a float: the fraction is dropped toward zero (its bounds are `JavaMath.TruncTowardZero`) |
| `JavaMath.TruncTowardZero` | pepse/PepseGameManager.java:190 | the `(int)` cast of a float never moves away from zero and drops less than one |
| `Terrain.GridStart` | pepse/world/Terrain.java:62 | `start` is a multiple of 30; for `minX >= 0` it is at most `minX` by less than 30, for negative `minX` at least `minX` by less than 30 |
| `Terrain.GridEnd` | pepse/world/Terrain.java:63 | `end` is the least multiple of 30 not below `maxX` |
| `Terrain.NegativeStartRoundsUp` | pepse/world/Terrain.java:62-63 | the snap of -500 is -480 and of 500 is 480; `maxX` 500 snaps to 510 |
| `Terrain.Terrain.GroundHeightAt` | pepse/world/Terrain.java:46-51 | `groundHeightAt`: two thirds of the window height plus the seeded noise at `x`; a function of `x` alone for a fixed terrain |
| `Terrain.Terrain.ColumnBlockCount` | pepse/world/Terrain.java:66-67 | `heightInBlocks`: `ceil((windowY - groundHeightAt(x)) / 30) + 1`, through `JavaMath.Ceil`'s contract |
| `Terrain.Terrain.FillBlockColumn` | pepse/world/Terrain.java:87-98 | a column of `max(0, n)` ground blocks, 30 x 30, block `l` with top-left `(x, windowY - 30 l)`: stacked without gaps from the window bottom up |
| `Terrain.Terrain.CreateInRange` | pepse/world/Terrain.java:60-71 | the output is the columns from the snapped `minX` to the snapped `maxX`, left to right; empty when the snapped start is not before the snapped end |
| `Terrain.Terrain.RangeOnGrid` | pepse/world/Terrain.java:62-69 | every emitted block is tagged "ground" and is a row that some column x has, with x a multiple of 30 inside the snapped range |
| `Terrain.Terrain.RangeCovers` | pepse/world/Terrain.java:65-69 | every row of every grid column inside the snapped range is emitted: no column and no row is missing |
| `Terrain.Terrain.ColumnsLength` | pepse/world/Terrain.java:64-69 | the output length is the sum of the per-column block counts `max(0, ceil(h/30) + 1)` |
| `Terrain.Terrain.ColumnsSorted` | pepse/world/Terrain.java:65-68 | output order: columns by increasing x, and within a column rows bottom up |
| `Terrain.Terrain.RangeDistinct` | pepse/world/Terrain.java:65-69 | no block is emitted twice by one call |
| `Terrain.Terrain.ColumnsSplit` | pepse/world/Terrain.java:65 | column runs `[x0, m)` and `[m, e)` concatenate to the run `[x0, e)` |
| `Terrain.Terrain.RangesTile` | pepse/world/Terrain.java:62-69 | two calls meeting at a grid line emit exactly what one call over the union emits |
| `Terrain.Terrain.SeamColumnTwice` | pepse/world/Terrain.java:62-63 | two calls meeting at a positive x off the grid both emit the column under the seam |
| `Terrain.Terrain.FlatTerrain` | pepse/world/Terrain.java:46-51 | with zero noise every column has the same number of blocks |
| `Tree.WhatToCreate` | pepse/world/trees/Tree.java:127-138 | `whatToCreate`: the growth for a key is a function of the seeded draw for `(key, seed)` alone; its three cases are proved by `Tree.WhatToCreateDraws` |
| `Tree.WhatToCreateDraws` | pepse/world/trees/Tree.java:127-138 | a draw below 8 gives a leaf, the draw 10 a fruit, and 8 or 9 nothing, each in both directions |
| `Tree.CreateTreeTrunk` | pepse/world/trees/Tree.java:84-88 | the trunk is tagged "trunk", 30 x 180, with its left edge at the bottom corner's x and its bottom at the bottom corner's y |
| `Tree.GridOffsets` | pepse/world/trees/Tree.java:95-98 | the loop offsets are exactly the seven values -105, -75, ..., 75 |
| `Tree.CreateTreeTopRow` | pepse/world/trees/Tree.java:98-118 | one row's inner loop creates exactly the leaves and fruits of the row's columns before its first "nothing", in order |
| `Tree.CreateTreeTop` | pepse/world/trees/Tree.java:93-120 | the top's leaves and fruits are the rows' cells, row after row |
| `Tree.NewTree` | pepse/world/trees/Tree.java:68-77 | the tree is a function of the bottom corner, the seed and the draw alone |
| `Tree.RowStopsAtFirstNothing` | pepse/world/trees/Tree.java:99-102 | in each row every column before the stop gets a leaf or fruit, and the stop column, if inside the top, gets nothing |
| `Tree.TopCellsMembers` | pepse/world/trees/Tree.java:97-118 | the top holds a cell of a kind exactly at the grid offsets whose outcome is that kind and that lie before their row's first "nothing" |
| `Tree.SameDiagonalSameGrowth` | pepse/world/trees/Tree.java:99 | two reached cells on one anti-diagonal `i + j` hold the same kind |
| `Tree.TopCellsShape` | pepse/world/trees/Tree.java:103-117 | each leaf or fruit is a 30 x 30 block with its tag, at trunk top + `(i, j)` for grid offsets `i, j` |
| `Tree.LeavesAndFruitsDisjoint` | pepse/world/trees/Tree.java:103-117 | no leaf and fruit share a position |
| `Tree.RowCount` | pepse/world/trees/Tree.java:98-118 | a row holds one cell per column before its first "nothing", at most 7 |
| `Tree.TopCount` | pepse/world/trees/Tree.java:97-118 | a tree top holds at most 49 leaves and fruits together |
| `Tree.TopPositionIndependent` | pepse/world/trees/Tree.java:103 | moving the trunk moves every leaf and fruit by the same vector: the pattern does not depend on the tree's position |
| `Flora.Flora.constructor` | pepse/world/trees/Flora.java:28-33 | a new planter has planted nothing |
| `Flora.Flora.CreateInRange` | pepse/world/trees/Flora.java:43-59 | `trees` grows by the trees of the range's selected candidates and the result is the whole accumulated collection; an empty range changes nothing |
| `Flora.Flora.ShouldPlantTree` | pepse/world/trees/Flora.java:67-71 | `shouldPlantTree`: a tree grows at `x` iff the draw for `(x, seed)` is 1; it reads nothing else, so the answer is independent of range and order (proved by `Flora.Flora.PlantedAt`) |
| `Flora.Flora.TreeForTrunk` | pepse/world/trees/Flora.java:49-54 | a planted tree's trunk has its bottom-left corner at `(x, groundHeight(x))`, the unsnapped ground height |
| `Flora.Flora.PlantedMembers` | pepse/world/trees/Flora.java:44-57 | a call plants a tree exactly when it is the tree of a candidate `minX + 30k < maxX` whose draw is 1 |
| `Flora.Flora.PlantedAt` | pepse/world/trees/Flora.java:67-71 | a candidate's tree is planted iff its own draw `(x, seed)` is 1, whatever the range |
| `Flora.Flora.PlantedOnce` | pepse/world/trees/Flora.java:44-57 | one call plants no tree twice |
| `Flora.Flora.PlantedBound` | pepse/world/trees/Flora.java:44-57 | one call plants at most one tree per candidate position |
| `Fruit.Fruit.constructor` | pepse/world/trees/Fruit.java:29-33 | a new fruit is uneaten, tagged "fruit" and one block in size |
| `Fruit.Fruit.ResetFruit` | pepse/world/trees/Fruit.java:46-49 | a reset fruit is edible again |
| `Fruit.Fruit.OnCollisionEnter` | pepse/world/trees/Fruit.java:59-68 | a contact changes the flag and hands energy exactly as `Fruit.Step` says |
| `Fruit.TouchOutcome` | pepse/world/trees/Fruit.java:61-63 | a contact grants energy iff the other is the avatar and the fruit is uneaten; then it grants exactly 10 and leaves the fruit eaten; otherwise nothing changes |
| `Fruit.EatenUntilReset` | pepse/world/trees/Fruit.java:61-66 | an eaten fruit grants nothing and stays eaten through any run without a reset |
| `Fruit.GrantedBound` | pepse/world/trees/Fruit.java:61-66 | over any run a fruit grants at most 10 per reset, plus 10 if it starts uneaten |
| `Avatar.Avatar.constructor` | pepse/world/Avatar.java:52 | energy starts at 100 |
| `Avatar.Avatar.HandleWalking` | pepse/world/Avatar.java:95-123 | no effect below 0.5 energy; otherwise the x speed is 400 toward the direction and 0.5 is paid only when the y speed is 0 |
| `Avatar.Avatar.HandleJumping` | pepse/world/Avatar.java:142-151 | with at least 10 energy and y speed 0, pays 10 and sets the y speed to -650; otherwise nothing |
| `Avatar.Avatar.UpdateEnergy` | pepse/world/Avatar.java:157-161 | adds the amount only when energy is below 100 |
| `Avatar.Avatar.Update` | pepse/world/Avatar.java:168-195 | one frame does what `Avatar.Frame` says: stop, walk on exactly one arrow, jump, regain when idle and still |
| `Avatar.FrameLedger` | pepse/world/Avatar.java:179-192 | a frame's energy change is -0.5 if it walks on the ground, -10 if it jumps, +1 if idle, still and below 100, and nothing else |
| `Avatar.FrameVelocity` | pepse/world/Avatar.java:172-188 | after a frame the x speed is ±400 toward the one held arrow when there is energy to walk, else 0; a jump sets the y speed to -650 |
| `Avatar.BothArrowsNoWalk` | pepse/world/Avatar.java:179-183 | holding both arrows neither moves nor costs walking energy |
| `Avatar.EnergyOvershoots` | pepse/world/Avatar.java:157-161 | the cap is tested only before adding: 95 + 10 gives 105, while at 100 nothing is added |
| `Avatar.FrameKeepsRange` | pepse/world/Avatar.java:186-192 | a frame keeps energy in [0, 110) |
| `Avatar.FruitKeepsRange` | pepse/world/Avatar.java:157-161 | adding up to 10 keeps energy in [0, 110) |
| `Avatar.RunKeepsRange` | pepse/world/Avatar.java:96-98 | through any run of frames and fruit, energy never becomes negative and stays below 110 |
| `Avatar.ShouldCollideWith` | pepse/world/Avatar.java:211-218 | `shouldCollideWith`: true exactly for the tags ground, trunk and fruit (proved against the world tags by `Avatar.CollidesWithWorldButLeaves`) |
| `Avatar.CollidesWithWorldButLeaves` | pepse/world/Avatar.java:211-218 | the avatar collides exactly with ground, trunk and fruit, the world tags other than leaf |
| `PepseGameManager.ExtraWorld` | pepse/PepseGameManager.java:142 | `extraWorld` is `ceil(width / 2)` |
| `PepseGameManager.InitialEdges` | pepse/PepseGameManager.java:96-100 | the initial edges are `-0.5 width` and `1.5 width`, two widths apart |
| `PepseGameManager.GameManager.InitializeGame` | pepse/PepseGameManager.java:67-91 | after initialisation the scene is the terrain of the initial edges followed by the parts of the trees planted once for `[0, width)`, and the energy is 100 |
| `PepseGameManager.GameManager.UpdateInfinityWorldEdges` | pepse/PepseGameManager.java:96-100 | sets the edges to the initial edges and nothing else |
| `PepseGameManager.GameManager.CreateTerrainRange` | pepse/PepseGameManager.java:189-194 | adds the terrain of the `(int)`-cast range, block by block |
| `PepseGameManager.GameManager.AddTreeParts` | pepse/PepseGameManager.java:154-163 | adds one tree's trunk, then its leaves, then its fruits |
| `PepseGameManager.GameManager.CreateFlora` | pepse/PepseGameManager.java:150-165 | plants the trees of the cast range and adds every planted tree's parts, tree after tree |
| `PepseGameManager.GameManager.FlushPending` | pepse/PepseGameManager.java:192 | engine behaviour, not application code: the objects `addGameObject` queued during the frame join the scene at its end, in order |
| `PepseGameManager.GameManager.RemoveUnseenObjects` | pepse/PepseGameManager.java:263-273 | the scene keeps, in order, exactly the objects that are not world-tagged with a center outside the edges |
| `PepseGameManager.GameManager.AddToRight` | pepse/PepseGameManager.java:278-283 | adds the terrain of `[right, right + extra)`, evicts at the old edges, then moves both edges right by `extra` |
| `PepseGameManager.GameManager.AddToLeft` | pepse/PepseGameManager.java:288-293 | adds the terrain of `[left - extra, left)`, evicts at the old edges, then moves both edges left by `extra` |
| `PepseGameManager.GameManager.Update` | pepse/PepseGameManager.java:247-258 | at most one shift per frame, right before left; the window keeps its width; the scene is the evicted old scene plus the new strip |
| `PepseGameManager.GameManager.FruitCollision` | pepse/PepseGameManager.java:161 | an uneaten fruit the avatar touches feeds 10 through `updateEnergy`; an eaten one gives nothing |
| `PepseGameManager.TrackKeepsWidth` | pepse/PepseGameManager.java:281-282 | no sequence of frames changes `right - left` |
| `PepseGameManager.ThresholdsApart` | pepse/PepseGameManager.java:252-256 | for a window at least one pixel wide, the right and left shift conditions never hold together |
| `PepseGameManager.RightShiftExample` | pepse/PepseGameManager.java:278-283 | width 1000: edges -500 and 1500, an avatar at 1050 shifts right to 0 and 2000, and the strip is the columns 1500 .. 1980 |
| `PepseGameManager.InitialTerrainLeftGap` | pepse/PepseGameManager.java:79 | the initial terrain starts at the snap of the truncated left edge, at or right of the edge; for width 1000 it starts at -480 while the edge is -500 |
| `PepseGameManager.ShiftAddsOnlyGround` | pepse/PepseGameManager.java:279 | a shift adds only ground blocks, never flora |
| `PepseGameManager.EvictedCount` | pepse/PepseGameManager.java:263-273 | eviction drops every copy of an unseen world object and keeps every other object's count |
| `PepseGameManager.EvictedMembers` | pepse/PepseGameManager.java:265-267 | after eviction an object is present iff it was present and is not a world-tagged object outside the edges |

## Left out

- Rendering, animations, the camera, sky, sun, halo, night, clouds and the energy display. They are presentation only.
- `NoiseGenerator`, `java.util.Random` and `Objects.hash` are foreign code. They become the `noise` and `rng` parameters, so the model proves nothing about their distributions.
- The random seed chosen at start is a constructor parameter.
- Java `float` rounding and 32-bit `int` overflow are not modelled. Coordinates are exact reals and unbounded integers, which matches the game at window-sized magnitudes.
- `HashSet` iteration order is not modelled. Tree tops and `createFlora` visit in a fixed or ghost-chosen order, and Flora's `trees` is a multiset.
- `createFlora` creates the `Flora` object inside itself. It is called once, so the model creates the planter when the game initialises.
- The jump-observer notification in `handleJumping` is an engine callback and is not modelled.
- `Block` and `TreeTrunk` physics settings are engine configuration. They are not modelled.
- The engine's layers and collision dispatch are not modelled. `FruitCollision` stands for the avatar touching a fruit.
- The fruit's respawn after `CYCLE_LENGTH` is a timed engine task. It is modelled as an explicit `ResetFruit` call.
- `PepseGameManager.GameManager.Update`: its scene contract assumes the engine applies `addGameObject` at the end of a frame, after that frame's eviction pass (`FlushPending`). The engine's collection code is not part of this model, so this reading is not confirmed.
- `removeUnseenObjects` removes while it iterates. The model builds the kept sequence instead.

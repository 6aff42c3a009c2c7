# Gremlin puzzle stage, in Dafny

This project models the stage of a small tile-based puzzle game written in Go.
A stage is loaded from a tile map. Each tile id places either a wall or one of
the objects: gremlins (three colours, awake or asleep), boulders or stars
(three colours). The stage keeps a flat "solid map" with one cell per tile.
Gremlins read that map to decide where they may move, and write to it as they
move.

Each frame the stage does the following:

1. It runs a first pass over the gremlins. This pass counts the hostile
   gremlins, runs every star collision and finds the first active gremlin. When
   that gremlin is dying for the first time, the pass latches its transform
   cue.
2. When no hostile gremlin is left, the frame is won and the update returns
   early.
3. Otherwise every gremlin takes its step.
4. On a rising edge of "something is moving" the frame spends one move. It is
   lost when the counter falls below zero.
5. Otherwise every star marks its own cell solid again.

The model has five modules:

- `Grid`: the solid map as a value. This covers bounds-checked reads and
  writes, and lists of writes.
- `Tiles`: the tile map, the tile-id table, and the object list that
  `parseObjects` produces in row-major order.
- `Gremlins`: the gremlin as the stage sees it, and the first pass as a
  function over the gremlin sequence.
- `Moves`: the rising-edge move counter over a run of frames.
- `StageSim`: the imperative part.
  - The `Stage` class has the solid map as an `array<int>` and its gremlins,
    stars, flags and counter as fields.
  - The `Star` class is the star actor.
  - Every method of these two classes is proved against the value-level
    functions. Lemmas about those functions state the game's rules.

The gremlin's own code (`createGremlin`, `getStarCollision`, `isActive` and
`gremlin.update`) lies outside this model. It is passed to the stage as
function parameters, so every property below holds whatever values that code
computes, within the interface those parameters give it (see "## Left out").
The game reacts to a frame (`showInfoBox(true/false)`), and the two audio
samples play. Both are returned as a `FrameEvents` value.

Two places where the code is more specific than its design notes:

- **The transform cue.** The design describes the cue as firing once for every
  gremlin that starts to transform. The code latches it only for the first
  active gremlin of a frame, in collection order. A later dying gremlin waits
  until it becomes the first active one. The model follows the code.
- **Star cells in the constructor.** `createStage` runs `parseObjects`, and
  every star created there marks its cell solid. So right after construction,
  star cells are solid as well as walls. `Tiles.StartGridAt` states this, and
  `Tiles.InitialSolidAt` states the wall-only map that exists before the
  objects are parsed.

## Model

| member | source | states |
|---|---|---|
| Grid.SolidAt | src/stage.go:323-330 | isTileSolid on a grid value reads every out-of-bounds cell as solid (1) |
| Grid.WriteSolid | src/stage.go:333-340 | updateSolid on a grid value keeps the grid's shape and is a no-op for out-of-bounds cells |
| Grid.IndexInRange | src/stage.go:329 | the row-major index y*w+x of an in-bounds cell lies inside the w*h grid |
| Grid.IndexInjective | src/stage.go:329 | two distinct in-bounds cells never share the index y*w+x |
| Grid.IndexCovers | src/stage.go:350-359 | every index of the flat grid belongs to exactly one in-bounds cell |
| Grid.ReadAfterWrite | src/stage.go:323-340 | after a write, reading the written in-bounds cell gives the written value; every other cell, and any cell after an out-of-bounds write, reads as before |
| Grid.WriteIdempotent | src/star.go:26 | writing the same value twice at one cell is the same as writing it once |
| Grid.GridExtensional | src/stage.go:323-330 | two maps of the same shape that read alike on every in-bounds cell are equal |
| Grid.ApplyWrites | src/stage.go:138-141 | applying a list of updateSolid calls keeps the grid's shape |
| Grid.ApplyWritesPush | src/stage.go:138-141 | applying one more write is writing it onto the grid the earlier writes left |
| Grid.ApplyWritesConcat | src/stage.go:138-161 | two lists of writes applied one after the other equal their concatenation applied |
| Grid.ApplyWritesUntouched | src/stage.go:333-340 | a cell that no write targets keeps its value |
| Grid.ApplyWritesMarked | src/stage.go:158-161 | when every write marks a cell solid, each in-bounds targeted cell is solid afterwards |
| Grid.ApplyMarksAt | src/stage.go:158-161 | after a list of marks, an in-bounds cell is 1 if some mark targets it and unchanged otherwise |
| Grid.MarksIdempotent | src/star.go:23-30 | re-applying the same list of marks changes nothing |
| Tiles.TileAt | src/stage.go:60 | getTile reads the tile of cell (x, y); `Tiles.InitialSolidAt`, `Tiles.StartGridAt` and the `RowSpawns`/`GridSpawns` lemmas state the solid map and the object list in terms of it |
| Tiles.Encode | src/stage.go:68-84 | the tile id that places an object: `Tiles.Decode` proves every decoded object encodes back to its id, and `Tiles.DecodeEncode` proves every placeable object decodes back from its id |
| Tiles.Decode | src/stage.go:60-84 | ids 2..11 and only those place an object, at the tile's own cell; the object has a tile id, and that id is the one decoded |
| Tiles.DecodeEncode | src/stage.go:68-84 | every gremlin colour awake or asleep, the boulder and every star colour decode back from their tile id |
| Tiles.OptAt | src/stage.go:69-82 | the object a tile places sits at that tile's cell |
| Tiles.RowSpawns | src/stage.go:57-85 | the objects of one row in scan order; the `RowSpawns*` lemmas prove they lie in that row, run strictly left to right, are each what their tile decodes to, and miss no decodable tile |
| Tiles.GridSpawns | src/stage.go:55-86 | the objects of the first m rows in scan order; the `GridSpawns*` lemmas prove the same four facts row by row and in strict row-major order |
| Tiles.Spawns | src/stage.go:51-87 | the objects parseObjects creates, in creation order; `Tiles.SpawnsExact` proves they are exactly the decodable tiles' objects, each once, row-major |
| Tiles.RowSpawnsPlaced | src/stage.go:57-85 | a row's objects lie in that row, inside the columns scanned so far |
| Tiles.RowSpawnsOrdered | src/stage.go:57-85 | a row's objects are listed left to right, strictly |
| Tiles.RowSpawnsDecoded | src/stage.go:57-85 | every object of a row is what its tile decodes to |
| Tiles.RowSpawnsComplete | src/stage.go:57-85 | every decodable tile of the scanned columns contributes its object to the row |
| Tiles.RowMajorConcat | src/stage.go:55-86 | two row-major lists, the second wholly after the first, concatenate to a row-major list |
| Tiles.GridSpawnsPlaced | src/stage.go:55-86 | the objects of the first m rows lie in those rows |
| Tiles.GridSpawnsSound | src/stage.go:55-86 | every object of the first m rows is what its tile decodes to |
| Tiles.GridSpawnsRowMajor | src/stage.go:55-86 | the objects of the first m rows are in strict row-major order |
| Tiles.GridSpawnsComplete | src/stage.go:55-86 | every decodable tile of the first m rows contributes its object |
| Tiles.SpawnsExact | src/stage.go:51-87 | parseObjects creates exactly the decodable tiles' objects, each once, in row-major order |
| Tiles.SplitSpawns | src/stage.go:68-84 | splitting the objects into gremlins and stars loses nothing and adds nothing |
| Tiles.SplitKeepsOrder | src/stage.go:38-48 | the gremlin list and the star list each keep row-major order |
| Tiles.GremlinsOfSpawns | src/stage.go:39-42 | the i-th created gremlin is createGremlin applied to the i-th gremlin object |
| Tiles.SpawnsConcat | src/stage.go:55-86 | the objects of two lists in a row are created one list after the other |
| Tiles.MarkWritesConcat | src/star.go:48 | the solid marks of two object lists are the marks of each, in turn |
| Tiles.InitialSolid | src/stage.go:350-359 | the constructor's fill loop gives a solid map of width*height cells |
| Tiles.StartGrid | src/stage.go:343-391 | the solid map after construction has width*height cells |
| Tiles.InitialSolidAt | src/stage.go:350-359 | before parsing, a cell is solid exactly when its tile id is 1 (a wall) |
| Tiles.StarCellMarked | src/stage.go:73-74 | a star tile's cell is the target of some star's solid mark |
| Tiles.OtherCellUnmarked | src/stage.go:73-74 | no star's solid mark targets a cell whose tile is not a star |
| Tiles.StartGridAt | src/stage.go:343-391 | after construction, a cell is solid exactly when its tile is a wall or a star |
| Gremlins.Collided | src/stage.go:107-110 | a gremlin after getStarCollision with every star in collection order; `Gremlins.CollidedConcat` proves the collisions compose list after list, and `StageSim.CollideWithStars` proves the loop computes it |
| Gremlins.CollidedConcat | src/stage.go:107-110 | colliding with one list of stars and then another is colliding with both in a row |
| Gremlins.CheckStep | src/stage.go:100-121 | one gremlin's iteration keeps the gremlins already handled and appends this one, latched only when it is the first active gremlin; the count grows exactly for a hostile gremlin; anyMoving becomes true exactly when this gremlin is active; the cue becomes due exactly when its flag flips |
| Gremlins.CheckPass | src/stage.go:98-122 | the first pass handles every gremlin once |
| Gremlins.CheckPassPush | src/stage.go:98-122 | the pass over one more gremlin is one more iteration of the loop body |
| Gremlins.FirstActiveOfPrefix | src/stage.go:113 | whether a gremlin is the first active one depends only on the gremlins before it |
| Gremlins.CheckCountsHostiles | src/stage.go:96-103 | the frame's gremlin count is the number of gremlins that exist and are not boulders, taken before any collision |
| Gremlins.CheckMoving | src/stage.go:94-115 | anyMoving ends true exactly when some gremlin is active after its star collisions |
| Gremlins.CheckGremlinStates | src/stage.go:105-121 | each gremlin leaves the pass as its collided state, with the transform flag set only when it is the first active gremlin and dying |
| Gremlins.CheckTransforming | src/stage.go:113-121 | the transform cue is due exactly when the first active gremlin is dying and has not yet played it |
| Gremlins.CheckLatchesOnce | src/stage.go:113-121 | the pass changes nothing but transform flags and never clears one; it flips at most one flag, and the cue is due iff it flips one |
| StageSim.SpriteRow | src/star.go:52 | the star's sprite row lies in its colour's block of five rows, at offset 2 |
| StageSim.StarRows | src/star.go:19 | the three star colours animate on rows 2, 7 and 12 |
| StageSim.Star.constructor | src/star.go:40-58 | createStar records position and colour, sets the sprite row, and marks its cell solid through the bounds-checked write |
| StageSim.Star.Update | src/star.go:23-30 | a star's update makes its in-bounds cell solid, leaves every other cell alone, and animates on its sprite row |
| StageSim.StarWrites | src/stage.go:158-161 | the star pass is one solid mark per star, at that star's cell, in order |
| StageSim.MovePass | src/stage.go:138-141 | the motion pass keeps the gremlin count and the grid's shape |
| StageSim.FrameStep | src/stage.go:90-162 | one frame keeps the grid's shape and the number of gremlins |
| StageSim.CollideWithStars | src/stage.go:107-110 | the collision loop runs getStarCollision against every star in collection order |
| StageSim.CheckOne | src/stage.go:100-121 | the loop body for one gremlin computes exactly one step of the reference pass |
| StageSim.FirstPass | src/stage.go:94-122 | the first-pass loop computes the hostile count, anyMoving, the transform cue and the latched gremlins of the reference pass |
| StageSim.PlacedNothing | src/stage.go:51-87 | creating no objects changes nothing |
| StageSim.PlacedConcat | src/stage.go:55-86 | creating one list of objects and then another is creating both in a row |
| StageSim.PlacedRow | src/stage.go:55-86 | creating the objects of the rows above y and then those of row y creates the objects of the first y + 1 rows |
| StageSim.Stage.IsTileSolid | src/stage.go:323-330 | isTileSolid reads the stage's solid map, with out-of-bounds cells solid |
| StageSim.Stage.UpdateSolid | src/stage.go:333-340 | updateSolid changes only cell y*w+x; the written in-bounds cell reads back its value, and an out-of-bounds write changes nothing |
| StageSim.Stage.constructor | src/stage.go:343-391 | createStage takes the tile map and move limit and clears both flags; its gremlins and stars are parseObjects' in row-major order, and the solid map holds walls and stars |
| StageSim.Stage.AddGremlin | src/stage.go:39-42 | addGremlin appends the gremlin createGremlin builds |
| StageSim.Stage.AddStar | src/stage.go:45-48 | addStar appends a star at the cell with the colour, and that star marks its cell solid |
| StageSim.Stage.AddObject | src/stage.go:60-84 | one tile adds the object its id decodes to, or nothing |
| StageSim.Stage.ParseRow | src/stage.go:57-85 | one row adds its objects left to right |
| StageSim.Stage.ParseObjects | src/stage.go:51-87 | parseObjects adds every tile's object, row by row and left to right; each star marks its cell |
| StageSim.Stage.CheckGremlins | src/stage.go:94-122 | anyMoving moves into oldMovingState, then the gremlins, count, anyMoving and cue are those of the reference first pass |
| StageSim.Stage.UpdateGremlins | src/stage.go:138-141 | each gremlin takes its step in order, seeing the solid map the earlier ones left |
| StageSim.Stage.UpdateStars | src/stage.go:158-161 | every star marks its cell solid again, in order |
| StageSim.Stage.Update | src/stage.go:90-162 | one frame of the stage leaves exactly the state and events of the reference frame function, and the stars are unchanged |
| StageSim.WinIffNoHostiles | src/stage.go:131-135 | a frame is won exactly when no existing non-boulder gremlin remains |
| StageSim.WinningFrameRunsNothing | src/stage.go:131-135 | a won frame returns before any gremlin step, counter change or star update, and plays no move sample |
| StageSim.LatchShift | src/stage.go:94-115 | every frame moves anyMoving into oldMovingState and sets anyMoving to whether some gremlin is active |
| StageSim.MoveAccounting | src/stage.go:143-155 | with hostiles left, the counter drops by one exactly on a rising edge; the move sample plays exactly then; the frame is lost exactly when that edge takes the counter below zero |
| StageSim.StarsReasserted | src/stage.go:157-161 | after a frame that goes on, every in-bounds star cell is solid, other cells are as the gremlins left them, and a second star pass changes nothing |
| StageSim.TransformCue | src/stage.go:124-128 | the transform sample plays exactly when the first pass sets some gremlin's flag; it never sets more than one per frame |
| Moves.RisingEdge | src/stage.go:144 | a move is counted exactly when anyMoving turns from false to true |
| Moves.Countdown | src/stage.go:144-149 | one frame's counter is either unchanged or one less, and it is one less exactly on a rising edge of anyMoving |
| Moves.RunFrames | src/stage.go:143-155 | over a run of frames, a loss names one of those frames; a run that goes on ends with the last frame's anyMoving and a counter no higher than at the start |
| Moves.RunCountsEdges | src/stage.go:143-155 | from a counter of N, each rising edge costs one move; the game goes on while edges are at most N, and it is lost on the frame of the (N+1)-th edge |

## Left out

- Drawing is not modelled: the borders, the info panel, the sprites, and the
  xpos/ypos centring of the stage.
- Asset loading is not modelled. The tile map is an input value, and the
  bitmaps and samples are not represented.
- The audio manager is not modelled. The two samples become the
  `transformCue` and `moveCue` flags of `FrameEvents`.
- The game's info box is not modelled. It becomes the `Outcome` of the frame.
- Input and the frame time `tm` are not modelled. They only reach the gremlin
  step and the animation timer.
- Star animation is not modelled beyond the sprite row. `Star.Update` returns
  that row; the float frame timer and `animSpeed` are not represented.
- The star's `vx`/`vy` fields are never used by the code, so they are left out.
- The gremlin's own code is received as function parameters:
  - createGremlin is `create`;
  - getStarCollision is `collide`;
  - isActive is `active`;
  - gremlin.update is `step`.
- Gremlin code that writes to the solid map is only partly modelled:
  - createGremlin and getStarCollision receive the stage and could write to
    its solid map, but those writes are not modelled;
  - gremlin.update is modelled as a step that sees the solid map as it stands
    and returns the updateSolid calls it makes, in order.
- `create`, `collide`, `active` and `step` see only their own gremlin (with
  the star, or with the solid map for `step`). In the source, createGremlin,
  getStarCollision and gremlin.update receive the whole stage. The model does
  not capture any reading or changing, through that pointer, of other
  gremlins, of the star list, of `anyMoving`, `oldMovingState` or `moves`.
  `Tiles.StartGridAt` and the constructor's solid-map clause rely on
  createGremlin writing nothing to the solid map.
- `getTile` is taken to read the tile map row by row at `y*width+x`.
  tilemap.go is not part of this model.
- int32 and int widths are modelled as unbounded integers. Overflow of
  `y*width+x` or of the move counter is not modelled, because stages are at
  most a screen of tiles.
- Go pointers to gremlins are modelled as values in a sequence, which is
  enough because no gremlin is shared between slots. Stars are objects whose
  modelled fields never change after creation. The sprite's animation state,
  which `animate` changes every frame, is not modelled.
- `gameRef` and the scene and game code (game.go, scene.go) are not modelled.
  The stage `index` is kept but only stored.

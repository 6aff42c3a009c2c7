/** The stage: its solid map, its gremlins and stars, the move counter and
    the per-frame update, with the star actor that writes into the solid map.

    The gremlin's own code is passed in as functions: create (createGremlin),
    collide (getStarCollision), active (isActive) and step (gremlin.update,
    which sees the solid map as it stands and asks for a list of
    updateSolid writes). The game's showInfoBox(won) and the two audio
    samples are returned as FrameEvents. */
module StageSim {
  import opened Grid
  import opened Gremlins
  import opened Tiles
  import opened Moves

  /** The sprite-sheet row of a star of the given colour: each colour owns a
      block of five rows and the star animation is the third row of it. */
  function SpriteRow(color: int): (row: int)
    ensures row / 5 == color && row % 5 == 2
  {
    color * 5 + 2
  }

  /** The three star colours animate on rows 2, 7 and 12. */
  lemma StarRows()
    ensures SpriteRow(0) == 2 && SpriteRow(1) == 7 && SpriteRow(2) == 12
  {
  }

  /** A star: it keeps its own cell solid. Its unused velocity and the
      animation frame and timer of its sprite are not modelled. */
  class Star {
    const x: int
    const y: int
    const color: int
    /** The sprite row set at creation. */
    const row: int

    /** createStar: records the cell, marks it solid through the stage's
        bounds-checked write, sets the sprite row and the colour. */
    constructor (x: int, y: int, color: int, s: Stage)
      requires s.Valid()
      modifies s.solidMap
      ensures this.x == x && this.y == y && this.color == color
      ensures row == SpriteRow(color)
      ensures s.solidMap[..] == WriteSolid(old(s.solidMap[..]), s.width, s.height, x, y, 1)
    {
      this.x := x;
      this.y := y;
      this.row := color * 5 + 2;
      this.color := color;
      new;
      s.UpdateSolid(x, y, 1);
    }

    /** update: marks the star's cell solid again, then animates the sprite
        on the row it returns. */
    method Update(s: Stage) returns (animRow: int)
      requires s.Valid()
      modifies s.solidMap
      ensures s.solidMap[..] == WriteSolid(old(s.solidMap[..]), s.width, s.height, x, y, 1)
      ensures InBounds(s.width, s.height, x, y) ==> s.IsTileSolid(x, y) == 1
      ensures forall qx, qy :: qx != x || qy != y ==> s.IsTileSolid(qx, qy) == old(s.IsTileSolid(qx, qy))
      ensures animRow == SpriteRow(color)
    {
      s.UpdateSolid(x, y, 1);
      animRow := color * 5 + 2;
    }
  }

  /** The stars as the objects that describe them. */
  function Describe(stars: seq<Star>): (r: seq<Spawn>)
    ensures |r| == |stars|
    ensures forall i :: 0 <= i < |stars| ==> r[i] == StarSpawn(stars[i].x, stars[i].y, stars[i].color)
  {
    seq(|stars|, i requires 0 <= i < |stars| => StarSpawn(stars[i].x, stars[i].y, stars[i].color))
  }

  /** The writes of every star's update, in collection order. */
  function StarWrites(stars: seq<Star>): (ws: seq<SolidWrite>)
    ensures |ws| == |stars| && AllMarks(ws)
    ensures forall i :: 0 <= i < |stars| ==> Targets(ws[i], stars[i].x, stars[i].y)
  {
    MarkWrites(Describe(stars))
  }

  /** The part of the stage that update changes. */
  datatype StageState = StageState(
    gremlins: seq<Gremlin>, grid: seq<int>,
    anyMoving: bool, oldMovingState: bool, moves: int)

  /** How a frame ends: still playing, or showInfoBox(true) / showInfoBox(false). */
  datatype Outcome = Playing | Won | Lost

  /** What a frame reports: its outcome and whether it played the transform
      sample and the move sample. */
  datatype FrameEvents = FrameEvents(outcome: Outcome, transformCue: bool, moveCue: bool)

  /** The motion pass: every gremlin's update, in collection order, each one
      seeing the solid map the previous ones left. */
  function MovePass(gs: seq<Gremlin>, grid: seq<int>, w: int, h: int,
                    step: (Gremlin, seq<int>) -> (Gremlin, seq<SolidWrite>)): (r: (seq<Gremlin>, seq<int>))
    requires Shaped(grid, w, h)
    ensures |r.0| == |gs| && Shaped(r.1, w, h)
    decreases |gs|
  {
    if gs == [] then ([], grid)
    else
      var done := MovePass(gs[..|gs| - 1], grid, w, h, step);
      var moved := step(gs[|gs| - 1], done.1);
      (done.0 + [moved.0], ApplyWrites(done.1, w, h, moved.1))
  }

  /** One frame of update, as a function of the state before it. */
  function FrameStep(st: StageState, w: int, h: int, stars: seq<Star>,
                     collide: (Gremlin, Star) -> Gremlin, active: Gremlin -> bool,
                     step: (Gremlin, seq<int>) -> (Gremlin, seq<SolidWrite>)): (r: (StageState, FrameEvents))
    requires Shaped(st.grid, w, h)
    ensures Shaped(r.0.grid, w, h) && |r.0.gremlins| == |st.gremlins|
  {
    var p := CheckPass(st.gremlins, stars, collide, active);
    if p.hostile == 0 then
      (StageState(p.gremlins, st.grid, p.moving, st.anyMoving, st.moves),
       FrameEvents(Won, p.transforming, false))
    else
      var moved := MovePass(p.gremlins, st.grid, w, h, step);
      var edge := RisingEdge(st.anyMoving, p.moving);
      var moves := Countdown(st.moves, st.anyMoving, p.moving);
      if edge && moves < 0 then
        (StageState(moved.0, moved.1, p.moving, st.anyMoving, moves),
         FrameEvents(Lost, p.transforming, true))
      else
        (StageState(moved.0, ApplyWrites(moved.1, w, h, StarWrites(stars)), p.moving, st.anyMoving, moves),
         FrameEvents(Playing, p.transforming, edge))
  }

  /** The star collisions of one gremlin: getStarCollision against every
      star in collection order. */
  method CollideWithStars(g: Gremlin, stars: seq<Star>, collide: (Gremlin, Star) -> Gremlin) returns (c: Gremlin)
    ensures c == Collided(g, stars, collide)
  {
    c := g;
    var i2 := 0;
    while i2 < |stars|
      invariant 0 <= i2 <= |stars|
      invariant c == Collided(g, stars[..i2], collide)
    {
      assert stars[..i2 + 1][..i2] == stars[..i2];
      c := collide(c, stars[i2]);
      i2 := i2 + 1;
    }
    assert stars[..i2] == stars;
  }

  /** The body of update's first loop for one gremlin: count it if hostile,
      run its star collisions, and latch its transform flag when it is the
      first active gremlin and dying. */
  method CheckOne(g: Gremlin, gremlinCount: nat, anyMoving: bool, transforming: bool, stars: seq<Star>,
                  collide: (Gremlin, Star) -> Gremlin, active: Gremlin -> bool, ghost done: seq<Gremlin>)
    returns (g': Gremlin, gremlinCount': nat, anyMoving': bool, transforming': bool)
    ensures CheckStep(CheckState(done, gremlinCount, anyMoving, transforming), g, stars, collide, active)
            == CheckState(done + [g'], gremlinCount', anyMoving', transforming')
  {
    gremlinCount', anyMoving', transforming' := gremlinCount, anyMoving, transforming;
    if g.exist && g.color != Boulder {
      gremlinCount' := gremlinCount + 1;
    }
    g' := CollideWithStars(g, stars, collide);
    if !anyMoving && active(g') {
      anyMoving' := true;
      if g'.dying && !g'.transformPlayed {
        transforming' := true;
        g' := g'.(transformPlayed := true);
      }
    }
  }

  /** The loop of update's first pass: count the hostiles, run every star
      collision on each gremlin, and find the first active gremlin, latching
      its transform flag. */
  method FirstPass(gs: seq<Gremlin>, stars: seq<Star>, collide: (Gremlin, Star) -> Gremlin, active: Gremlin -> bool)
    returns (out: seq<Gremlin>, gremlinCount: nat, anyMoving: bool, transforming: bool)
    ensures CheckPass(gs, stars, collide, active) == CheckState(out, gremlinCount, anyMoving, transforming)
  {
    out := gs;
    anyMoving := false;
    gremlinCount := 0;
    transforming := false;
    var i := 0;
    while i < |out|
      invariant 0 <= i <= |out| == |gs|
      invariant forall j :: i <= j < |out| ==> out[j] == gs[j]
      invariant CheckPass(gs[..i], stars, collide, active) == CheckState(out[..i], gremlinCount, anyMoving, transforming)
    {
      CheckPassPush(gs, i, stars, collide, active);
      ghost var done := out[..i];
      var g;
      g, gremlinCount, anyMoving, transforming := CheckOne(out[i], gremlinCount, anyMoving, transforming, stars, collide, active, done);
      out := out[i := g];
      assert out[..i + 1] == done + [g];
      i := i + 1;
    }
    assert gs[..i] == gs;
    assert out[..i] == out;
  }

  /** What parseObjects builds up: the gremlins, the stars as the objects
      they describe, and the solid map. */
  datatype Placement = Placement(gremlins: seq<Gremlin>, stars: seq<Spawn>, grid: seq<int>)

  /** after is before with the objects ss created in order: their gremlins
      and stars appended and every star's cell marked solid. */
  ghost predicate Placed(create: (int, int, int, bool) -> Gremlin, w: int, h: int, ss: seq<Spawn>,
                         before: Placement, after: Placement)
  {
    && Shaped(before.grid, w, h)
    && after.gremlins == before.gremlins + GremlinsOf(create, ss)
    && after.stars == before.stars + StarSpawns(ss)
    && after.grid == ApplyWrites(before.grid, w, h, MarkWrites(StarSpawns(ss)))
  }

  lemma PlacedNothing(create: (int, int, int, bool) -> Gremlin, w: int, h: int, p: Placement)
    requires Shaped(p.grid, w, h)
    ensures Placed(create, w, h, [], p, p)
  {
  }

  /** Creating one list of objects and then another is creating both in a row. */
  lemma PlacedConcat(create: (int, int, int, bool) -> Gremlin, w: int, h: int, s1: seq<Spawn>, s2: seq<Spawn>,
                     a: Placement, b: Placement, c: Placement)
    requires Placed(create, w, h, s1, a, b) && Placed(create, w, h, s2, b, c)
    ensures Placed(create, w, h, s1 + s2, a, c)
  {
    SpawnsConcat(create, s1, s2);
    var m1, m2 := MarkWrites(StarSpawns(s1)), MarkWrites(StarSpawns(s2));
    calc {
      ApplyWrites(a.grid, w, h, MarkWrites(StarSpawns(s1 + s2)));
      { MarkWritesConcat(StarSpawns(s1), StarSpawns(s2)); }
      ApplyWrites(a.grid, w, h, m1 + m2);
      { ApplyWritesConcat(a.grid, w, h, m1, m2); }
      ApplyWrites(ApplyWrites(a.grid, w, h, m1), w, h, m2);
    }
  }

  /** The rows above y and then row y are the first y + 1 rows. */
  lemma PlacedRow(create: (int, int, int, bool) -> Gremlin, tm: Tilemap, y: int, a: Placement, b: Placement, c: Placement)
    requires WellFormed(tm) && 0 <= y < tm.height
    requires Placed(create, tm.width, tm.height, GridSpawns(tm, y), a, b)
    requires Placed(create, tm.width, tm.height, RowSpawns(tm, y, tm.width), b, c)
    ensures Placed(create, tm.width, tm.height, GridSpawns(tm, y + 1), a, c)
  {
    PlacedConcat(create, tm.width, tm.height, GridSpawns(tm, y), RowSpawns(tm, y, tm.width), a, b, c);
  }

  class Stage {
    const baseMap: Tilemap
    const width: int
    const height: int
    const index: int
    const solidMap: array<int>
    var gremlins: seq<Gremlin>
    var stars: seq<Star>
    var anyMoving: bool
    var oldMovingState: bool
    var moves: int

    /** The size is the tile map's, and the solid map has a cell for each tile. */
    ghost predicate Valid()
    {
      WellFormed(baseMap) && width == baseMap.width && height == baseMap.height &&
      solidMap.Length == width * height
    }

    /** The part of the stage that update changes, as a value. */
    function State(): StageState
      reads this, solidMap
    {
      StageState(gremlins, solidMap[..], anyMoving, oldMovingState, moves)
    }

    /** isTileSolid: out-of-bounds cells read as solid. */
    function IsTileSolid(x: int, y: int): (r: int)
      requires Valid()
      reads solidMap
      ensures r == SolidAt(solidMap[..], width, height, x, y)
    {
      if x < 0 || y < 0 || x >= width || y >= height then 1
      else IndexInRange(width, height, x, y); solidMap[y * width + x]
    }

    /** updateSolid: an out-of-bounds write does nothing; an in-bounds write
        changes that one cell, which then reads back the written value. */
    method UpdateSolid(x: int, y: int, value: int)
      requires Valid()
      modifies solidMap
      ensures solidMap[..] == WriteSolid(old(solidMap[..]), width, height, x, y, value)
      ensures InBounds(width, height, x, y) ==> IsTileSolid(x, y) == value
      ensures forall qx, qy :: qx != x || qy != y ==> IsTileSolid(qx, qy) == old(IsTileSolid(qx, qy))
    {
      ghost var before := solidMap[..];
      if x < 0 || y < 0 || x >= width || y >= height {
        return;
      }
      IndexInRange(width, height, x, y);
      solidMap[y * width + x] := value;
      assert solidMap[..] == WriteSolid(before, width, height, x, y, value);
      forall qx, qy
        ensures SolidAt(solidMap[..], width, height, qx, qy)
                == if qx == x && qy == y then value else SolidAt(before, width, height, qx, qy)
      {
        ReadAfterWrite(before, width, height, x, y, value, qx, qy);
      }
    }

    /** createStage: the solid map holds the walls, the counter starts at the
        map's move limit, nothing is moving, and parseObjects places the
        gremlins and stars. */
    constructor (index: int, tm: Tilemap, create: (int, int, int, bool) -> Gremlin)
      requires WellFormed(tm)
      ensures Valid() && baseMap == tm && this.index == index && fresh(solidMap)
      ensures moves == tm.moveLimit && !anyMoving && !oldMovingState
      ensures gremlins == GremlinsOf(create, Spawns(tm))
      ensures Describe(stars) == StarSpawns(Spawns(tm))
      ensures solidMap[..] == StartGrid(tm)
    {
      var grid := new int[tm.width * tm.height];
      var i := 0;
      while i < grid.Length
        invariant 0 <= i <= grid.Length
        invariant forall j :: 0 <= j < i ==> grid[j] == InitialSolid(tm)[j]
      {
        if tm.data[i] == 1 {
          grid[i] := 1;
        } else {
          grid[i] := 0;
        }
        i := i + 1;
      }
      baseMap := tm;
      solidMap := grid;
      width := tm.width;
      height := tm.height;
      moves := tm.moveLimit;
      anyMoving := false;
      oldMovingState := false;
      this.index := index;
      gremlins := [];
      stars := [];
      new;
      assert solidMap[..] == InitialSolid(tm);
      ParseObjects(create);
    }

    /** addGremlin: appends the gremlin createGremlin builds. */
    method AddGremlin(x: int, y: int, color: int, sleeping: bool, create: (int, int, int, bool) -> Gremlin)
      modifies this`gremlins
      ensures gremlins == old(gremlins) + [create(x, y, color, sleeping)]
    {
      gremlins := gremlins + [create(x, y, color, sleeping)];
    }

    /** addStar: creates the star, which marks its cell solid, and appends it. */
    method AddStar(x: int, y: int, color: int)
      requires Valid()
      modifies this`stars, solidMap
      ensures Describe(stars) == Describe(old(stars)) + [StarSpawn(x, y, color)]
      ensures solidMap[..] == WriteSolid(old(solidMap[..]), width, height, x, y, 1)
    {
      var st := new Star(x, y, color, this);
      stars := stars + [st];
      assert Describe(stars) == Describe(old(stars)) + [StarSpawn(x, y, color)];
    }

    /** The gremlins, the stars (as the objects they describe) and the solid map. */
    ghost function Objects(): Placement
      reads this, solidMap
    {
      Placement(gremlins, Describe(stars), solidMap[..])
    }

    /** The body of parseObjects' inner loop for a tile id above zero: add
        the gremlin or star the id asks for, or nothing. */
    method AddObject(x: int, y: int, tileID: int, create: (int, int, int, bool) -> Gremlin)
      requires Valid()
      modifies this`gremlins, this`stars, solidMap
      ensures Placed(create, width, height, Opt(Decode(tileID, x, y)), old(Objects()), Objects())
    {
      ghost var o := Opt(Decode(tileID, x, y));
      if 2 <= tileID <= 4 {
        AddGremlin(x, y, tileID - 2, false, create);
      } else if 5 <= tileID <= 7 {
        AddStar(x, y, tileID - 5);
        assert MarkWrites(StarSpawns(o)) == [] + [SolidWrite(x, y, 1)];
      } else if 8 <= tileID <= 10 {
        AddGremlin(x, y, tileID - 8, true, create);
      } else if tileID == 11 {
        AddGremlin(x, y, Boulder, false, create);
      }
    }

    /** One row of parseObjects, left to right. */
    method ParseRow(y: int, create: (int, int, int, bool) -> Gremlin)
      requires Valid() && 0 <= y < height
      modifies this`gremlins, this`stars, solidMap
      ensures Placed(create, width, height, RowSpawns(baseMap, y, width), old(Objects()), Objects())
    {
      ghost var start := Objects();
      PlacedNothing(create, width, height, start);
      var x := 0;
      while x < width
        invariant 0 <= x <= width
        invariant Placed(create, width, height, RowSpawns(baseMap, y, x), start, Objects())
      {
        ghost var before := Objects();
        var tileID := TileAt(baseMap, x, y);
        ghost var o := Opt(Decode(tileID, x, y));
        assert RowSpawns(baseMap, y, x + 1) == RowSpawns(baseMap, y, x) + o;
        if tileID <= 0 {
          assert RowSpawns(baseMap, y, x) + o == RowSpawns(baseMap, y, x);
          x := x + 1;
          continue;
        }
        AddObject(x, y, tileID, create);
        PlacedConcat(create, width, height, RowSpawns(baseMap, y, x), o, start, before, Objects());
        x := x + 1;
      }
    }

    /** parseObjects: every tile, row by row and left to right, adds the
        gremlin or star its id asks for. */
    method ParseObjects(create: (int, int, int, bool) -> Gremlin)
      requires Valid()
      modifies this`gremlins, this`stars, solidMap
      ensures Placed(create, width, height, Spawns(baseMap), old(Objects()), Objects())
    {
      ghost var start := Objects();
      PlacedNothing(create, width, height, start);
      var y := 0;
      while y < height
        invariant 0 <= y <= height
        invariant Placed(create, width, height, GridSpawns(baseMap, y), start, Objects())
      {
        ghost var before := Objects();
        ParseRow(y, create);
        PlacedRow(create, baseMap, y, start, before, Objects());
        y := y + 1;
      }
    }

    /** The first pass of update: anyMoving moves into oldMovingState, then
        the pass runs over the gremlins in place. */
    method CheckGremlins(collide: (Gremlin, Star) -> Gremlin, active: Gremlin -> bool)
      returns (gremlinCount: nat, transforming: bool)
      modifies this`gremlins, this`anyMoving, this`oldMovingState
      ensures oldMovingState == old(anyMoving)
      ensures CheckPass(old(gremlins), stars, collide, active)
              == CheckState(gremlins, gremlinCount, anyMoving, transforming)
    {
      oldMovingState := anyMoving;
      gremlins, gremlinCount, anyMoving, transforming := FirstPass(gremlins, stars, collide, active);
    }

    /** The motion pass of update: each gremlin's update in turn, its solid
        map writes applied in the order it makes them. */
    method UpdateGremlins(step: (Gremlin, seq<int>) -> (Gremlin, seq<SolidWrite>))
      requires Valid()
      modifies this`gremlins, solidMap
      ensures (gremlins, solidMap[..]) == MovePass(old(gremlins), old(solidMap[..]), width, height, step)
    {
      ghost var gs0 := gremlins;
      ghost var grid0 := solidMap[..];
      var i := 0;
      while i < |gremlins|
        invariant 0 <= i <= |gremlins| == |gs0|
        invariant forall j :: i <= j < |gremlins| ==> gremlins[j] == gs0[j]
        invariant MovePass(gs0[..i], grid0, width, height, step) == (gremlins[..i], solidMap[..])
      {
        ghost var done := gremlins[..i];
        assert gs0[..i + 1][..i] == gs0[..i];
        var moved := step(gremlins[i], solidMap[..]);
        gremlins := gremlins[i := moved.0];
        assert gremlins[..i + 1] == done + [moved.0];
        var ws := moved.1;
        ghost var grid1 := solidMap[..];
        var k := 0;
        while k < |ws|
          invariant 0 <= k <= |ws|
          invariant solidMap[..] == ApplyWrites(grid1, width, height, ws[..k])
          modifies solidMap
        {
          ApplyWritesPush(grid1, width, height, ws[..k], ws[k]);
          assert ws[..k + 1] == ws[..k] + [ws[k]];
          UpdateSolid(ws[k].x, ws[k].y, ws[k].value);
          k := k + 1;
        }
        assert ws[..k] == ws;
        i := i + 1;
      }
      assert gs0[..i] == gs0;
      assert gremlins[..i] == gremlins;
    }

    /** The star pass of update: every star marks its cell solid again. */
    method UpdateStars()
      requires Valid()
      modifies solidMap
      ensures solidMap[..] == ApplyWrites(old(solidMap[..]), width, height, StarWrites(stars))
    {
      ghost var grid0 := solidMap[..];
      var i := 0;
      while i < |stars|
        invariant 0 <= i <= |stars|
        invariant solidMap[..] == ApplyWrites(grid0, width, height, StarWrites(stars[..i]))
      {
        var st := stars[i];
        assert StarWrites(stars[..i + 1]) == StarWrites(stars[..i]) + [SolidWrite(st.x, st.y, 1)];
        ApplyWritesPush(grid0, width, height, StarWrites(stars[..i]), SolidWrite(st.x, st.y, 1));
        var animRow := st.Update(this);
        i := i + 1;
      }
      assert stars[..i] == stars;
    }

    /** update: one frame of the stage. */
    method Update(collide: (Gremlin, Star) -> Gremlin, active: Gremlin -> bool,
                  step: (Gremlin, seq<int>) -> (Gremlin, seq<SolidWrite>))
      returns (ev: FrameEvents)
      requires Valid()
      modifies this, solidMap
      ensures stars == old(stars)
      ensures (State(), ev) == FrameStep(old(State()), width, height, stars, collide, active, step)
    {
      var gremlinCount, transforming := CheckGremlins(collide, active);
      if gremlinCount == 0 {
        ev := FrameEvents(Won, transforming, false);
        return;
      }
      UpdateGremlins(step);
      var edge := oldMovingState != anyMoving && anyMoving;
      if edge {
        moves := moves - 1;
        if moves < 0 {
          ev := FrameEvents(Lost, transforming, true);
          return;
        }
      }
      UpdateStars();
      ev := FrameEvents(Playing, transforming, edge);
    }
  }

  /** A frame is won exactly when no gremlin that exists is a non-boulder,
      counted before the frame's collisions. */
  lemma WinIffNoHostiles(st: StageState, w: int, h: int, stars: seq<Star>,
                         collide: (Gremlin, Star) -> Gremlin, active: Gremlin -> bool,
                         step: (Gremlin, seq<int>) -> (Gremlin, seq<SolidWrite>))
    requires Shaped(st.grid, w, h)
    ensures FrameStep(st, w, h, stars, collide, active, step).1.outcome == Won <==> HostileCount(st.gremlins) == 0
  {
    CheckCountsHostiles(st.gremlins, stars, collide, active);
  }

  /** A won frame returns before any gremlin or star update: the solid map
      and the counter are untouched, no move sample plays, and the gremlins
      are as the first pass left them. */
  lemma WinningFrameRunsNothing(st: StageState, w: int, h: int, stars: seq<Star>,
                                collide: (Gremlin, Star) -> Gremlin, active: Gremlin -> bool,
                                step: (Gremlin, seq<int>) -> (Gremlin, seq<SolidWrite>))
    requires Shaped(st.grid, w, h) && HostileCount(st.gremlins) == 0
    ensures var r := FrameStep(st, w, h, stars, collide, active, step);
      && r.1.outcome == Won && !r.1.moveCue
      && r.0.grid == st.grid && r.0.moves == st.moves
      && (forall j :: 0 <= j < |st.gremlins| ==>
            r.0.gremlins[j] == Latched(Collided(st.gremlins[j], stars, collide),
                                       FirstActive(st.gremlins, stars, collide, active, j)))
  {
    CheckCountsHostiles(st.gremlins, stars, collide, active);
    CheckGremlinStates(st.gremlins, stars, collide, active);
  }

  /** Every frame moves anyMoving into oldMovingState and sets anyMoving to
      whether some gremlin is active once its star collisions have run. */
  lemma LatchShift(st: StageState, w: int, h: int, stars: seq<Star>,
                   collide: (Gremlin, Star) -> Gremlin, active: Gremlin -> bool,
                   step: (Gremlin, seq<int>) -> (Gremlin, seq<SolidWrite>))
    requires Shaped(st.grid, w, h)
    ensures var r := FrameStep(st, w, h, stars, collide, active, step);
      && r.0.oldMovingState == st.anyMoving
      && (r.0.anyMoving <==> exists j :: 0 <= j < |st.gremlins| && active(Collided(st.gremlins[j], stars, collide)))
  {
    CheckMoving(st.gremlins, stars, collide, active);
  }

  /** While hostiles remain, a frame is one step of the move budget: the
      counter drops by one exactly on a rising edge of anyMoving, the move
      sample plays exactly then, and the frame is lost exactly when that
      edge takes the counter below zero. */
  lemma MoveAccounting(st: StageState, w: int, h: int, stars: seq<Star>,
                       collide: (Gremlin, Star) -> Gremlin, active: Gremlin -> bool,
                       step: (Gremlin, seq<int>) -> (Gremlin, seq<SolidWrite>))
    requires Shaped(st.grid, w, h) && HostileCount(st.gremlins) > 0
    ensures var r := FrameStep(st, w, h, stars, collide, active, step);
      var edge := RisingEdge(st.anyMoving, r.0.anyMoving);
      && r.1.outcome != Won
      && r.0.moves == (if edge then st.moves - 1 else st.moves)
      && (r.1.moveCue <==> edge)
      && (r.1.outcome == Lost <==> edge && st.moves <= 0)
      && RunFrames(st.moves, st.anyMoving, [r.0.anyMoving])
         == if r.1.outcome == Lost then LostAt(0) else Running(r.0.moves, r.0.anyMoving)
  {
    CheckCountsHostiles(st.gremlins, stars, collide, active);
    var r := FrameStep(st, w, h, stars, collide, active, step);
    assert [r.0.anyMoving][1..] == [];
  }

  /** After a frame that goes on, every star's in-bounds cell is solid, every
      cell no star sits on is as the gremlins left it, and running the star
      pass again would change nothing. */
  lemma StarsReasserted(st: StageState, w: int, h: int, stars: seq<Star>,
                        collide: (Gremlin, Star) -> Gremlin, active: Gremlin -> bool,
                        step: (Gremlin, seq<int>) -> (Gremlin, seq<SolidWrite>))
    requires Shaped(st.grid, w, h)
    requires FrameStep(st, w, h, stars, collide, active, step).1.outcome == Playing
    ensures var r := FrameStep(st, w, h, stars, collide, active, step);
      var moved := MovePass(CheckPass(st.gremlins, stars, collide, active).gremlins, st.grid, w, h, step);
      && r.0.gremlins == moved.0
      && (forall i :: 0 <= i < |stars| && InBounds(w, h, stars[i].x, stars[i].y) ==>
            SolidAt(r.0.grid, w, h, stars[i].x, stars[i].y) == 1)
      && (forall x, y :: (forall i :: 0 <= i < |stars| ==> stars[i].x != x || stars[i].y != y) ==>
            SolidAt(r.0.grid, w, h, x, y) == SolidAt(moved.1, w, h, x, y))
      && ApplyWrites(r.0.grid, w, h, StarWrites(stars)) == r.0.grid
  {
    var moved := MovePass(CheckPass(st.gremlins, stars, collide, active).gremlins, st.grid, w, h, step);
    var ws := StarWrites(stars);
    forall i | 0 <= i < |stars| && InBounds(w, h, stars[i].x, stars[i].y)
      ensures SolidAt(ApplyWrites(moved.1, w, h, ws), w, h, stars[i].x, stars[i].y) == 1
    {
      ApplyWritesMarked(moved.1, w, h, ws, i);
    }
    forall x, y | (forall i :: 0 <= i < |stars| ==> stars[i].x != x || stars[i].y != y)
      ensures SolidAt(ApplyWrites(moved.1, w, h, ws), w, h, x, y) == SolidAt(moved.1, w, h, x, y)
    {
      ApplyWritesUntouched(moved.1, w, h, ws, x, y);
    }
    MarksIdempotent(moved.1, w, h, ws);
  }

  /** The transform sample plays on a frame exactly when the first pass sets
      some gremlin's transform flag; it sets at most one, clears none and
      changes nothing else the collisions left. */
  lemma TransformCue(st: StageState, w: int, h: int, stars: seq<Star>,
                     collide: (Gremlin, Star) -> Gremlin, active: Gremlin -> bool,
                     step: (Gremlin, seq<int>) -> (Gremlin, seq<SolidWrite>))
    requires Shaped(st.grid, w, h)
    ensures var r := FrameStep(st, w, h, stars, collide, active, step);
      var p := CheckPass(st.gremlins, stars, collide, active);
      && (r.1.transformCue <==>
            exists j :: 0 <= j < |st.gremlins| && Flips(Collided(st.gremlins[j], stars, collide), p.gremlins[j]))
      && (forall i, j ::
            (0 <= i < |st.gremlins| && 0 <= j < |st.gremlins| &&
             Flips(Collided(st.gremlins[i], stars, collide), p.gremlins[i]) &&
             Flips(Collided(st.gremlins[j], stars, collide), p.gremlins[j])) ==> i == j)
  {
    CheckLatchesOnce(st.gremlins, stars, collide, active);
  }
}

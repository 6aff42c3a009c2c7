/** The loaded tile map and the decoding of its tile ids into the stage's
    initial gremlins and stars (parseObjects), in row-major order. */
module Tiles {
  import opened Grid
  import opened Gremlins

  datatype Option<T> = None | Some(value: T)

  /** What the stage takes from the loaded tile map. */
  datatype Tilemap = Tilemap(width: int, height: int, data: seq<int>, moveLimit: int)

  /** The loader's guarantee: non-negative size, and a tile for every cell
      the solid-map construction loop reads. */
  predicate WellFormed(tm: Tilemap)
  {
    0 <= tm.width && 0 <= tm.height && tm.width * tm.height <= |tm.data|
  }

  /** getTile(x, y): the tile of cell (x, y), stored row by row. */
  function TileAt(tm: Tilemap, x: int, y: int): int
    requires WellFormed(tm) && InBounds(tm.width, tm.height, x, y)
  {
    IndexInRange(tm.width, tm.height, x, y);
    tm.data[Index(tm.width, x, y)]
  }

  /** An object a tile asks for, with the arguments of addGremlin or addStar. */
  datatype Spawn =
    | GremlinSpawn(x: int, y: int, color: int, sleeping: bool)
    | StarSpawn(x: int, y: int, color: int)

  /** The tile id that places a given object: the inverse of Decode. */
  function Encode(s: Spawn): int
  {
    match s
    case GremlinSpawn(_, _, c, sleeping) => if c == Boulder then 11 else if sleeping then c + 8 else c + 2
    case StarSpawn(_, _, c) => c + 5
  }

  /** The objects some tile id places: three gremlin colours awake or
      asleep, a boulder that is never asleep, and three star colours. */
  predicate Encodable(s: Spawn)
  {
    match s
    case GremlinSpawn(_, _, c, sleeping) => 0 <= c <= 2 || (c == Boulder && !sleeping)
    case StarSpawn(_, _, c) => 0 <= c <= 2
  }

  /** The object tile id places at (x, y), if any. */
  function Decode(id: int, x: int, y: int): (r: Option<Spawn>)
    ensures r.Some? <==> 2 <= id <= 11
    ensures r.Some? ==> r.value.x == x && r.value.y == y && Encodable(r.value) && Encode(r.value) == id
  {
    if id <= 0 then None
    else if 2 <= id <= 4 then Some(GremlinSpawn(x, y, id - 2, false))
    else if 5 <= id <= 7 then Some(StarSpawn(x, y, id - 5))
    else if 8 <= id <= 10 then Some(GremlinSpawn(x, y, id - 8, true))
    else if id == 11 then Some(GremlinSpawn(x, y, Boulder, false))
    else None
  }

  /** Every object that has a tile id is decoded back from it. */
  lemma DecodeEncode(s: Spawn)
    requires Encodable(s)
    ensures Decode(Encode(s), s.x, s.y) == Some(s)
  {
  }

  function Opt(o: Option<Spawn>): seq<Spawn>
  {
    if o.Some? then [o.value] else []
  }

  /** The objects of cells 0 .. n-1 of row y, left to right. */
  function RowSpawns(tm: Tilemap, y: int, n: int): seq<Spawn>
    requires WellFormed(tm) && 0 <= y < tm.height && 0 <= n <= tm.width
    decreases n
  {
    if n == 0 then []
    else RowSpawns(tm, y, n - 1) + Opt(Decode(TileAt(tm, n - 1, y), n - 1, y))
  }

  /** The objects of rows 0 .. m-1, top to bottom. */
  function GridSpawns(tm: Tilemap, m: int): seq<Spawn>
    requires WellFormed(tm) && 0 <= m <= tm.height
    decreases m
  {
    if m == 0 then []
    else GridSpawns(tm, m - 1) + RowSpawns(tm, m - 1, tm.width)
  }

  /** The objects parseObjects creates, in creation order. */
  function Spawns(tm: Tilemap): seq<Spawn>
    requires WellFormed(tm)
  {
    GridSpawns(tm, tm.height)
  }

  /** Cell a comes strictly before cell b in row-major order. */
  predicate Before(a: Spawn, b: Spawn)
  {
    a.y < b.y || (a.y == b.y && a.x < b.x)
  }

  predicate RowMajor(ss: seq<Spawn>)
  {
    forall i, j :: 0 <= i < j < |ss| ==> Before(ss[i], ss[j])
  }

  /** s is what the tile under s decodes to. */
  predicate DecodedAt(tm: Tilemap, s: Spawn)
    requires WellFormed(tm)
  {
    InBounds(tm.width, tm.height, s.x, s.y) && Decode(TileAt(tm, s.x, s.y), s.x, s.y) == Some(s)
  }

  /** The object a tile places, if any, sits at that tile's cell. */
  lemma OptAt(id: int, x: int, y: int)
    ensures forall s :: s in Opt(Decode(id, x, y)) ==> s.x == x && s.y == y
  {
  }

  /** Row y lists objects of row y only, inside the first n columns. */
  lemma {:induction false} RowSpawnsPlaced(tm: Tilemap, y: int, n: int)
    requires WellFormed(tm) && 0 <= y < tm.height && 0 <= n <= tm.width
    ensures forall s :: s in RowSpawns(tm, y, n) ==> s.y == y && 0 <= s.x < n
    decreases n
  {
    if n > 0 {
      var id := TileAt(tm, n - 1, y);
      var p: seq<Spawn> := RowSpawns(tm, y, n - 1);
      var o: seq<Spawn> := Opt(Decode(id, n - 1, y));
      RowSpawnsPlaced(tm, y, n - 1);
      OptAt(id, n - 1, y);
      assert RowSpawns(tm, y, n) == p + o;
    }
  }

  /** Row y lists its objects strictly left to right. */
  lemma {:induction false} RowSpawnsOrdered(tm: Tilemap, y: int, n: int)
    requires WellFormed(tm) && 0 <= y < tm.height && 0 <= n <= tm.width
    ensures RowMajor(RowSpawns(tm, y, n))
    decreases n
  {
    if n > 0 {
      var id := TileAt(tm, n - 1, y);
      var p: seq<Spawn> := RowSpawns(tm, y, n - 1);
      var o: seq<Spawn> := Opt(Decode(id, n - 1, y));
      RowSpawnsOrdered(tm, y, n - 1);
      RowSpawnsPlaced(tm, y, n - 1);
      OptAt(id, n - 1, y);
      assert RowSpawns(tm, y, n) == p + o;
      RowMajorConcat(p, o);
    }
  }

  lemma {:induction false} RowSpawnsDecoded(tm: Tilemap, y: int, n: int)
    requires WellFormed(tm) && 0 <= y < tm.height && 0 <= n <= tm.width
    ensures forall s :: s in RowSpawns(tm, y, n) ==> DecodedAt(tm, s)
    decreases n
  {
    if n > 0 {
      RowSpawnsDecoded(tm, y, n - 1);
    }
  }

  lemma {:induction false} RowSpawnsComplete(tm: Tilemap, y: int, n: int)
    requires WellFormed(tm) && 0 <= y < tm.height && 0 <= n <= tm.width
    ensures forall x :: 0 <= x < n && Decode(TileAt(tm, x, y), x, y).Some? ==>
              Decode(TileAt(tm, x, y), x, y).value in RowSpawns(tm, y, n)
    decreases n
  {
    if n > 0 {
      RowSpawnsComplete(tm, y, n - 1);
    }
  }

  lemma RowMajorConcat(a: seq<Spawn>, b: seq<Spawn>)
    requires RowMajor(a) && RowMajor(b)
    requires forall s, t :: s in a && t in b ==> Before(s, t)
    ensures RowMajor(a + b)
  {
    forall i, j | 0 <= i < j < |a + b|
      ensures Before((a + b)[i], (a + b)[j])
    {
      if j < |a| {
        assert (a + b)[i] == a[i] && (a + b)[j] == a[j];
      } else if i >= |a| {
        assert (a + b)[i] == b[i - |a|] && (a + b)[j] == b[j - |a|];
      } else {
        assert (a + b)[i] == a[i] && (a + b)[j] == b[j - |a|];
        assert a[i] in a && b[j - |a|] in b;
      }
    }
  }

  lemma {:induction false} GridSpawnsPlaced(tm: Tilemap, m: int)
    requires WellFormed(tm) && 0 <= m <= tm.height
    ensures forall s :: s in GridSpawns(tm, m) ==> 0 <= s.y < m
    decreases m
  {
    if m > 0 {
      GridSpawnsPlaced(tm, m - 1);
      RowSpawnsPlaced(tm, m - 1, tm.width);
    }
  }

  /** Every listed object is what the tile under it decodes to. */
  lemma {:induction false} GridSpawnsSound(tm: Tilemap, m: int)
    requires WellFormed(tm) && 0 <= m <= tm.height
    ensures forall s :: s in GridSpawns(tm, m) ==> DecodedAt(tm, s)
    decreases m
  {
    if m > 0 {
      GridSpawnsSound(tm, m - 1);
      RowSpawnsDecoded(tm, m - 1, tm.width);
    }
  }

  /** The object list is in row-major order: y outer, x inner. */
  lemma {:induction false} GridSpawnsRowMajor(tm: Tilemap, m: int)
    requires WellFormed(tm) && 0 <= m <= tm.height
    ensures RowMajor(GridSpawns(tm, m))
    decreases m
  {
    if m > 0 {
      var a, b := GridSpawns(tm, m - 1), RowSpawns(tm, m - 1, tm.width);
      GridSpawnsRowMajor(tm, m - 1);
      GridSpawnsPlaced(tm, m - 1);
      RowSpawnsPlaced(tm, m - 1, tm.width);
      RowSpawnsOrdered(tm, m - 1, tm.width);
      RowMajorConcat(a, b);
    }
  }

  /** Every decodable cell of the first m rows is listed. */
  lemma {:induction false} GridSpawnsComplete(tm: Tilemap, m: int)
    requires WellFormed(tm) && 0 <= m <= tm.height
    ensures forall x, y :: InBounds(tm.width, tm.height, x, y) && y < m && Decode(TileAt(tm, x, y), x, y).Some? ==>
              Decode(TileAt(tm, x, y), x, y).value in GridSpawns(tm, m)
    decreases m
  {
    if m > 0 {
      GridSpawnsComplete(tm, m - 1);
      RowSpawnsComplete(tm, m - 1, tm.width);
    }
  }

  /** The object list is exactly the decodable cells, each once, in row-major
      order. */
  lemma SpawnsExact(tm: Tilemap)
    requires WellFormed(tm)
    ensures RowMajor(Spawns(tm))
    ensures forall s :: s in Spawns(tm) ==> DecodedAt(tm, s)
    ensures forall x, y :: InBounds(tm.width, tm.height, x, y) && Decode(TileAt(tm, x, y), x, y).Some? ==>
              Decode(TileAt(tm, x, y), x, y).value in Spawns(tm)
  {
    GridSpawnsSound(tm, tm.height);
    GridSpawnsRowMajor(tm, tm.height);
    GridSpawnsComplete(tm, tm.height);
  }

  /** The gremlin objects of a list, in order. */
  function GremlinSpawns(ss: seq<Spawn>): seq<Spawn>
    decreases |ss|
  {
    if ss == [] then []
    else GremlinSpawns(ss[..|ss| - 1]) + if ss[|ss| - 1].GremlinSpawn? then [ss[|ss| - 1]] else []
  }

  /** The star objects of a list, in order. */
  function StarSpawns(ss: seq<Spawn>): seq<Spawn>
    decreases |ss|
  {
    if ss == [] then []
    else StarSpawns(ss[..|ss| - 1]) + if ss[|ss| - 1].StarSpawn? then [ss[|ss| - 1]] else []
  }

  /** Splitting a list into gremlins and stars loses nothing and adds nothing. */
  lemma {:induction false} SplitSpawns(ss: seq<Spawn>)
    ensures forall s :: s in GremlinSpawns(ss) <==> s in ss && s.GremlinSpawn?
    ensures forall s :: s in StarSpawns(ss) <==> s in ss && s.StarSpawn?
    decreases |ss|
  {
    if ss != [] {
      var init, last := ss[..|ss| - 1], ss[|ss| - 1];
      SplitSpawns(init);
      assert ss == init + [last];
    }
  }

  /** Splitting a row-major list keeps both parts row-major. */
  lemma {:induction false} SplitKeepsOrder(ss: seq<Spawn>)
    requires RowMajor(ss)
    ensures RowMajor(GremlinSpawns(ss)) && RowMajor(StarSpawns(ss))
    decreases |ss|
  {
    if ss != [] {
      var init, last := ss[..|ss| - 1], ss[|ss| - 1];
      SplitKeepsOrder(init);
      SplitSpawns(init);
      assert forall i :: 0 <= i < |init| ==> init[i] == ss[i] && Before(init[i], last);
      assert forall s :: s in init ==> Before(s, last);
      RowMajorConcat(GremlinSpawns(init), if last.GremlinSpawn? then [last] else []);
      RowMajorConcat(StarSpawns(init), if last.StarSpawn? then [last] else []);
    }
  }

  /** createGremlin applied to each gremlin object, in order. */
  function GremlinsOf(create: (int, int, int, bool) -> Gremlin, ss: seq<Spawn>): seq<Gremlin>
    decreases |ss|
  {
    if ss == [] then []
    else
      GremlinsOf(create, ss[..|ss| - 1]) +
      match ss[|ss| - 1]
      case GremlinSpawn(x, y, c, sleeping) => [create(x, y, c, sleeping)]
      case StarSpawn(_, _, _) => []
  }

  /** The i-th created gremlin comes from the i-th gremlin object. */
  lemma {:induction false} GremlinsOfSpawns(create: (int, int, int, bool) -> Gremlin, ss: seq<Spawn>)
    ensures |GremlinsOf(create, ss)| == |GremlinSpawns(ss)|
    ensures forall i :: 0 <= i < |GremlinSpawns(ss)| ==>
              var s := GremlinSpawns(ss)[i];
              s.GremlinSpawn? && GremlinsOf(create, ss)[i] == create(s.x, s.y, s.color, s.sleeping)
    decreases |ss|
  {
    if ss != [] {
      GremlinsOfSpawns(create, ss[..|ss| - 1]);
    }
  }

  /** The objects of two lists in a row are created one list after the other. */
  lemma {:induction false} SpawnsConcat(create: (int, int, int, bool) -> Gremlin, a: seq<Spawn>, b: seq<Spawn>)
    ensures GremlinsOf(create, a + b) == GremlinsOf(create, a) + GremlinsOf(create, b)
    ensures StarSpawns(a + b) == StarSpawns(a) + StarSpawns(b)
    decreases |b|
  {
    if b == [] {
      assert a + b == a;
    } else {
      var init := b[..|b| - 1];
      assert (a + b)[..|a + b| - 1] == a + init;
      SpawnsConcat(create, a, init);
    }
  }

  /** The updateSolid(x, y, 1) call that creating an object at each cell makes. */
  function MarkWrites(ss: seq<Spawn>): seq<SolidWrite>
  {
    seq(|ss|, i requires 0 <= i < |ss| => SolidWrite(ss[i].x, ss[i].y, 1))
  }

  lemma MarkWritesConcat(a: seq<Spawn>, b: seq<Spawn>)
    ensures MarkWrites(a + b) == MarkWrites(a) + MarkWrites(b)
  {
    assert forall i :: 0 <= i < |b| ==> (a + b)[|a| + i] == b[i];
  }

  /** The solid map filled by createStage: walls solid, everything else free. */
  function InitialSolid(tm: Tilemap): (r: seq<int>)
    requires WellFormed(tm)
    ensures Shaped(r, tm.width, tm.height)
  {
    seq(tm.width * tm.height, i requires 0 <= i < tm.width * tm.height => if tm.data[i] == 1 then 1 else 0)
  }

  /** The solid map once parseObjects has created every star. */
  function StartGrid(tm: Tilemap): (r: seq<int>)
    requires WellFormed(tm)
    ensures Shaped(r, tm.width, tm.height)
  {
    ApplyWrites(InitialSolid(tm), tm.width, tm.height, MarkWrites(StarSpawns(Spawns(tm))))
  }

  /** Before the stars are placed, a cell is solid exactly when its tile is a wall. */
  lemma InitialSolidAt(tm: Tilemap, x: int, y: int)
    requires WellFormed(tm) && InBounds(tm.width, tm.height, x, y)
    ensures SolidAt(InitialSolid(tm), tm.width, tm.height, x, y) == if TileAt(tm, x, y) == 1 then 1 else 0
  {
    IndexInRange(tm.width, tm.height, x, y);
  }

  /** A star tile's cell is the target of some star mark. */
  lemma StarCellMarked(tm: Tilemap, x: int, y: int) returns (k: int)
    requires WellFormed(tm) && InBounds(tm.width, tm.height, x, y) && 5 <= TileAt(tm, x, y) <= 7
    ensures 0 <= k < |StarSpawns(Spawns(tm))| && Targets(MarkWrites(StarSpawns(Spawns(tm)))[k], x, y)
  {
    var ss := StarSpawns(Spawns(tm));
    GridSpawnsComplete(tm, tm.height);
    SplitSpawns(Spawns(tm));
    var s := StarSpawn(x, y, TileAt(tm, x, y) - 5);
    assert s in ss;
    k :| 0 <= k < |ss| && ss[k] == s;
  }

  /** No star mark targets a cell whose tile is not a star. */
  lemma OtherCellUnmarked(tm: Tilemap, x: int, y: int)
    requires WellFormed(tm) && InBounds(tm.width, tm.height, x, y) && !(5 <= TileAt(tm, x, y) <= 7)
    ensures forall k :: 0 <= k < |StarSpawns(Spawns(tm))| ==> !Targets(MarkWrites(StarSpawns(Spawns(tm)))[k], x, y)
  {
    var ss := StarSpawns(Spawns(tm));
    GridSpawnsSound(tm, tm.height);
    SplitSpawns(Spawns(tm));
    forall k | 0 <= k < |ss|
      ensures !Targets(MarkWrites(ss)[k], x, y)
    {
      assert ss[k] in ss;
      assert DecodedAt(tm, ss[k]);
    }
  }

  /** After construction, a cell is solid exactly when its tile is a wall or
      a star, and free otherwise. */
  lemma StartGridAt(tm: Tilemap, x: int, y: int)
    requires WellFormed(tm) && InBounds(tm.width, tm.height, x, y)
    ensures SolidAt(StartGrid(tm), tm.width, tm.height, x, y)
            == if TileAt(tm, x, y) == 1 || 5 <= TileAt(tm, x, y) <= 7 then 1 else 0
  {
    var ws := MarkWrites(StarSpawns(Spawns(tm)));
    InitialSolidAt(tm, x, y);
    if 5 <= TileAt(tm, x, y) <= 7 {
      var k := StarCellMarked(tm, x, y);
      ApplyWritesMarked(InitialSolid(tm), tm.width, tm.height, ws, k);
    } else {
      OtherCellUnmarked(tm, x, y);
      ApplyWritesUntouched(InitialSolid(tm), tm.width, tm.height, ws, x, y);
    }
  }
}

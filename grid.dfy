/** The stage's solidity grid as a value: a flat row-major sequence of
    width * height cells, each 1 (solid) or 0 (free). The Stage class keeps
    the same data in an array and is proved against these functions. */
module Grid {

  /** One call of updateSolid(x, y, value), as a gremlin's update issues it. */
  datatype SolidWrite = SolidWrite(x: int, y: int, value: int)

  /** The bounds test shared by isTileSolid and updateSolid. */
  predicate InBounds(w: int, h: int, x: int, y: int)
  {
    0 <= x < w && 0 <= y < h
  }

  /** Row-major position of cell (x, y). */
  function Index(w: int, x: int, y: int): int
  {
    y * w + x
  }

  predicate Shaped(grid: seq<int>, w: int, h: int)
  {
    0 <= w && 0 <= h && |grid| == w * h
  }

  lemma MulMonotone(a: int, b: int, c: int)
    requires a <= b && 0 <= c
    ensures a * c <= b * c
  {
    assert b * c - a * c == (b - a) * c;
  }

  /** Every in-bounds cell has an index inside the flat grid. */
  lemma IndexInRange(w: int, h: int, x: int, y: int)
    requires InBounds(w, h, x, y)
    ensures 0 <= Index(w, x, y) < w * h
  {
    MulMonotone(0, y, w);
    MulMonotone(y, h - 1, w);
    assert (h - 1) * w == w * h - w;
  }

  /** Distinct in-bounds cells never share an index. */
  lemma IndexInjective(w: int, h: int, x: int, y: int, x': int, y': int)
    requires InBounds(w, h, x, y) && InBounds(w, h, x', y')
    requires Index(w, x, y) == Index(w, x', y')
    ensures x == x' && y == y'
  {
    if y < y' {
      MulMonotone(y + 1, y', w);
      assert false;
    } else if y' < y {
      MulMonotone(y' + 1, y, w);
      assert false;
    }
  }

  /** Every index of the flat grid is the index of exactly one in-bounds cell. */
  lemma IndexCovers(w: int, h: int, i: int) returns (x: int, y: int)
    requires 0 <= w && 0 <= h && 0 <= i < w * h
    ensures InBounds(w, h, x, y) && Index(w, x, y) == i
  {
    if w == 0 {
      assert false;
    }
    x, y := i % w, i / w;
    assert i == w * y + x;
    if y >= h {
      MulMonotone(h, y, w);
      assert false;
    }
  }

  /** isTileSolid on a grid value: out-of-bounds reads as solid. */
  function SolidAt(grid: seq<int>, w: int, h: int, x: int, y: int): (r: int)
    requires Shaped(grid, w, h)
    ensures !InBounds(w, h, x, y) ==> r == 1
  {
    if !InBounds(w, h, x, y) then 1
    else IndexInRange(w, h, x, y); grid[Index(w, x, y)]
  }

  /** updateSolid on a grid value: out-of-bounds writes are ignored. */
  function WriteSolid(grid: seq<int>, w: int, h: int, x: int, y: int, v: int): (r: seq<int>)
    requires Shaped(grid, w, h)
    ensures Shaped(r, w, h)
    ensures !InBounds(w, h, x, y) ==> r == grid
  {
    if !InBounds(w, h, x, y) then grid
    else IndexInRange(w, h, x, y); grid[Index(w, x, y) := v]
  }

  /** A write changes exactly the written in-bounds cell, and reading it back
      gives the written value. */
  lemma ReadAfterWrite(grid: seq<int>, w: int, h: int, x: int, y: int, v: int, qx: int, qy: int)
    requires Shaped(grid, w, h)
    ensures SolidAt(WriteSolid(grid, w, h, x, y, v), w, h, qx, qy)
            == if InBounds(w, h, x, y) && qx == x && qy == y then v else SolidAt(grid, w, h, qx, qy)
  {
    if InBounds(w, h, x, y) {
      var i := Index(w, x, y);
      IndexInRange(w, h, x, y);
      var r := grid[i := v];
      assert WriteSolid(grid, w, h, x, y, v) == r;
      if qx == x && qy == y {
        assert SolidAt(r, w, h, qx, qy) == r[i];
      } else if InBounds(w, h, qx, qy) {
        var j := Index(w, qx, qy);
        IndexInRange(w, h, qx, qy);
        if i == j {
          IndexInjective(w, h, x, y, qx, qy);
        }
        assert SolidAt(r, w, h, qx, qy) == r[j] == grid[j];
      }
    }
  }

  /** Writing the same value twice at the same cell is the same as writing it once. */
  lemma WriteIdempotent(grid: seq<int>, w: int, h: int, x: int, y: int, v: int)
    requires Shaped(grid, w, h)
    ensures WriteSolid(WriteSolid(grid, w, h, x, y, v), w, h, x, y, v) == WriteSolid(grid, w, h, x, y, v)
  {
  }

  /** Two grids of the same shape that agree on every in-bounds cell are equal. */
  lemma GridExtensional(a: seq<int>, b: seq<int>, w: int, h: int)
    requires Shaped(a, w, h) && Shaped(b, w, h)
    requires forall x, y :: InBounds(w, h, x, y) ==> SolidAt(a, w, h, x, y) == SolidAt(b, w, h, x, y)
    ensures a == b
  {
    forall i | 0 <= i < |a|
      ensures a[i] == b[i]
    {
      var x, y := IndexCovers(w, h, i);
      assert SolidAt(a, w, h, x, y) == SolidAt(b, w, h, x, y);
    }
  }

  /** A sequence of updateSolid calls applied in order. */
  function ApplyWrites(grid: seq<int>, w: int, h: int, ws: seq<SolidWrite>): (r: seq<int>)
    requires Shaped(grid, w, h)
    ensures Shaped(r, w, h)
    decreases |ws|
  {
    if ws == [] then grid
    else
      var last := ws[|ws| - 1];
      WriteSolid(ApplyWrites(grid, w, h, ws[..|ws| - 1]), w, h, last.x, last.y, last.value)
  }

  /** Applying one more write is writing it onto the grid the others left. */
  lemma ApplyWritesPush(grid: seq<int>, w: int, h: int, ws: seq<SolidWrite>, wr: SolidWrite)
    requires Shaped(grid, w, h)
    ensures ApplyWrites(grid, w, h, ws + [wr]) == WriteSolid(ApplyWrites(grid, w, h, ws), w, h, wr.x, wr.y, wr.value)
  {
    assert (ws + [wr])[..|ws|] == ws;
  }

  /** Two lists of writes applied one after the other are their concatenation applied. */
  lemma {:induction false} ApplyWritesConcat(grid: seq<int>, w: int, h: int, a: seq<SolidWrite>, b: seq<SolidWrite>)
    requires Shaped(grid, w, h)
    ensures ApplyWrites(grid, w, h, a + b) == ApplyWrites(ApplyWrites(grid, w, h, a), w, h, b)
    decreases |b|
  {
    if b == [] {
      assert a + b == a;
    } else {
      var init, last := b[..|b| - 1], b[|b| - 1];
      assert a + b == (a + init) + [last];
      ApplyWritesConcat(grid, w, h, a, init);
      ApplyWritesPush(grid, w, h, a + init, last);
    }
  }

  predicate Targets(wr: SolidWrite, x: int, y: int)
  {
    wr.x == x && wr.y == y
  }

  predicate AllMarks(ws: seq<SolidWrite>)
  {
    forall k :: 0 <= k < |ws| ==> ws[k].value == 1
  }

  /** A cell that no write targets keeps its value. */
  lemma {:induction false} ApplyWritesUntouched(grid: seq<int>, w: int, h: int, ws: seq<SolidWrite>, x: int, y: int)
    requires Shaped(grid, w, h)
    requires forall k :: 0 <= k < |ws| ==> !Targets(ws[k], x, y)
    ensures SolidAt(ApplyWrites(grid, w, h, ws), w, h, x, y) == SolidAt(grid, w, h, x, y)
    decreases |ws|
  {
    if ws != [] {
      var init, last := ws[..|ws| - 1], ws[|ws| - 1];
      ApplyWritesUntouched(grid, w, h, init, x, y);
      ReadAfterWrite(ApplyWrites(grid, w, h, init), w, h, last.x, last.y, last.value, x, y);
    }
  }

  /** When every write marks its cell solid, each in-bounds targeted cell is solid afterwards. */
  lemma {:induction false} ApplyWritesMarked(grid: seq<int>, w: int, h: int, ws: seq<SolidWrite>, k: int)
    requires Shaped(grid, w, h)
    requires AllMarks(ws)
    requires 0 <= k < |ws| && InBounds(w, h, ws[k].x, ws[k].y)
    ensures SolidAt(ApplyWrites(grid, w, h, ws), w, h, ws[k].x, ws[k].y) == 1
    decreases |ws|
  {
    var init, last := ws[..|ws| - 1], ws[|ws| - 1];
    ReadAfterWrite(ApplyWrites(grid, w, h, init), w, h, last.x, last.y, last.value, ws[k].x, ws[k].y);
    if k < |ws| - 1 {
      assert init[k] == ws[k];
      ApplyWritesMarked(grid, w, h, init, k);
    }
  }

  /** The cell-by-cell meaning of a list of marks: solid where some mark
      targets the cell, unchanged elsewhere. */
  lemma ApplyMarksAt(grid: seq<int>, w: int, h: int, ws: seq<SolidWrite>, x: int, y: int)
    requires Shaped(grid, w, h) && AllMarks(ws) && InBounds(w, h, x, y)
    ensures SolidAt(ApplyWrites(grid, w, h, ws), w, h, x, y)
            == if exists k :: 0 <= k < |ws| && Targets(ws[k], x, y) then 1 else SolidAt(grid, w, h, x, y)
  {
    if k :| 0 <= k < |ws| && Targets(ws[k], x, y) {
      ApplyWritesMarked(grid, w, h, ws, k);
    } else {
      ApplyWritesUntouched(grid, w, h, ws, x, y);
    }
  }

  /** Re-applying the same marks changes nothing. */
  lemma MarksIdempotent(grid: seq<int>, w: int, h: int, ws: seq<SolidWrite>)
    requires Shaped(grid, w, h) && AllMarks(ws)
    ensures ApplyWrites(ApplyWrites(grid, w, h, ws), w, h, ws) == ApplyWrites(grid, w, h, ws)
  {
    var once := ApplyWrites(grid, w, h, ws);
    forall x, y | InBounds(w, h, x, y)
      ensures SolidAt(ApplyWrites(once, w, h, ws), w, h, x, y) == SolidAt(once, w, h, x, y)
    {
      ApplyMarksAt(once, w, h, ws, x, y);
      ApplyMarksAt(grid, w, h, ws, x, y);
    }
    GridExtensional(ApplyWrites(once, w, h, ws), once, w, h);
  }
}

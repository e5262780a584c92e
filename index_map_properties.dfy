/**
 * What the index map of matrix.py guarantees, and where it falls short:
 * bounds, the serpentine order of the chain, an inverse on panels one tile
 * wide and two tiles tall, and the collisions on every other panel.
 */
module IndexMapProperties {
  import opened Wrappers
  import opened Matrix

  // ---------------------------------------------------------------------
  // Bounds and known entries
  // ---------------------------------------------------------------------

  /** Every entry of every map lies in [0, 768): three tiles' worth. */
  lemma EntriesInRange(h: nat, w: nat)
    ensures forall y, x :: 0 <= y < h && 0 <= x < w ==> 0 <= IndexMap(h, w)[y][x] < 3 * GridLen
  {
  }

  /**
   * An entry splits into its tile base, 16 per column inside the tile and
   * the offset inside the column, and each part can be read back from it.
   */
  lemma EntryParts(x: nat, y: nat)
    ensures MapEntry(x, y) / GridLen == TileBase(x, y) / GridLen
    ensures (MapEntry(x, y) % GridLen) / GridH == x % 16
    ensures MapEntry(x, y) % GridH == CellOffset(x, y)
  {
  }

  /** The first cells of the chain: down column 0, then back up column 1. */
  lemma ChainStart(h: nat, w: nat)
    requires h >= 2 && w >= 2
    ensures IndexMap(h, w)[0][0] == 0
    ensures IndexMap(h, w)[1][0] == 1
    ensures IndexMap(h, w)[0][1] == 31
    ensures h >= 16 ==> IndexMap(h, w)[15][1] == 16
  {
  }

  // ---------------------------------------------------------------------
  // The serpentine order
  // ---------------------------------------------------------------------

  /**
   * Moving down one row inside a tile moves one step along the chain:
   * forwards in even columns, backwards in odd ones.
   */
  lemma ColumnFollowsChain(x: nat, y: nat)
    requires y % 16 < 15
    ensures MapEntry(x, y + 1) == MapEntry(x, y) + (if (x % 16) % 2 == 0 then 1 else -1)
  {
  }

  /**
   * The chain turns at the end of each column into the next column of the
   * same tile: the bottom of an even column and the top of an odd one are
   * followed by the cell beside them. Column 16 from row 16 on is excluded
   * because there it keeps the second tile's base while column 17 gets the
   * third.
   */
  lemma ColumnEndTurnsIntoNextColumn(x: nat, y: nat)
    requires x % 16 < 15 && !(x == 16 && y >= 16)
    requires ((x % 16) % 2 == 0 && y % 16 == 15) || ((x % 16) % 2 == 1 && y % 16 == 0)
    ensures MapEntry(x + 1, y) == MapEntry(x, y) + 1
  {
  }

  // ---------------------------------------------------------------------
  // An inverse on the first two tiles
  // ---------------------------------------------------------------------

  datatype Cell = Cell(x: nat, y: nat)

  /** The cell of the first 16 columns and 32 rows that sits at chain index k. */
  function CellAt(k: int): (c: Cell)
    requires 0 <= k < 2 * GridLen
    ensures c.x < 16 && c.y < 32
    ensures k < GridLen ==> c.y < 16
  {
    var tile := k / GridLen;
    var column := (k % GridLen) / GridH;
    var offset := k % GridH;
    var ty := if column % 2 == 0 then offset else GridH - 1 - offset;
    Cell(column, GridH * tile + ty)
  }

  /** CellAt finds a cell whose entry is k. */
  lemma CellAtFindsIndex(k: int)
    requires 0 <= k < 2 * GridLen
    ensures MapEntry(CellAt(k).x, CellAt(k).y) == k
  {
  }

  /** On the first 16 columns and 32 rows, an entry determines its cell. */
  lemma EntryDeterminesCell(x: nat, y: nat)
    requires x < 16 && y < 32
    ensures 0 <= MapEntry(x, y) < 2 * GridLen
    ensures y < 16 ==> MapEntry(x, y) < GridLen
    ensures CellAt(MapEntry(x, y)) == Cell(x, y)
  {
    EntryParts(x, y);
    var k := MapEntry(x, y);
    assert k / GridLen == (if y < 16 then 0 else 1);
    assert y == GridH * (k / GridLen) + y % 16;
  }

  // ---------------------------------------------------------------------
  // Injectivity: exactly the panels one tile wide and at most two tall
  // ---------------------------------------------------------------------

  /** No two cells of an h-by-w panel share a chain index. */
  ghost predicate Injective(h: nat, w: nat)
  {
    forall y1, x1, y2, x2 ::
      0 <= y1 < h && 0 <= x1 < w && 0 <= y2 < h && 0 <= x2 < w &&
      IndexMap(h, w)[y1][x1] == IndexMap(h, w)[y2][x2]
      ==> y1 == y2 && x1 == x2
  }

  /**
   * The map is injective exactly when the panel is empty, or at most 16
   * columns wide and 32 rows tall. Wider panels collide at column 16, which
   * repeats column 0; taller ones at row 32, which repeats row 16.
   */
  lemma InjectiveExactly(h: nat, w: nat)
    ensures Injective(h, w) <==> (h == 0 || w == 0 || (w <= 16 && h <= 32))
  {
    var m := IndexMap(h, w);
    if h == 0 || w == 0 {
    } else if w <= 16 && h <= 32 {
      forall y1, x1, y2, x2 |
        0 <= y1 < h && 0 <= x1 < w && 0 <= y2 < h && 0 <= x2 < w && m[y1][x1] == m[y2][x2]
        ensures y1 == y2 && x1 == x2
      {
        EntryDeterminesCell(x1, y1);
        EntryDeterminesCell(x2, y2);
      }
    } else if w > 16 {
      assert m[0][0] == m[0][16];
    } else {
      assert m[16][0] == m[32][0];
    }
  }

  /** The collisions of panels wider than one tile, including the second-tile base of row 16, column 16. */
  lemma WidePanelCollisions(h: nat, w: nat)
    requires w > 16
    ensures h > 0 ==> IndexMap(h, w)[0][0] == IndexMap(h, w)[0][16] == 0
    ensures h > 16 ==> IndexMap(h, w)[16][0] == IndexMap(h, w)[16][16] == GridLen
    ensures h > 16 && w > 17 ==> IndexMap(h, w)[16][17] == 2 * GridLen + GridH + GridH - 1
  {
  }

  /**
   * On a 16-by-16 or 32-by-16 panel the map is a bijection onto
   * [0, h * w): no collisions, every entry in range, every index hit.
   */
  lemma BijectiveOneTileWide(h: nat)
    requires h == 16 || h == 32
    ensures Injective(h, 16)
    ensures forall y, x :: 0 <= y < h && 0 <= x < 16 ==> 0 <= IndexMap(h, 16)[y][x] < h * 16
    ensures forall k :: 0 <= k < h * 16 ==>
      CellAt(k).y < h && IndexMap(h, 16)[CellAt(k).y][CellAt(k).x] == k
  {
    InjectiveExactly(h, 16);
    forall y, x | 0 <= y < h && 0 <= x < 16
      ensures 0 <= IndexMap(h, 16)[y][x] < h * 16
    {
      EntryDeterminesCell(x, y);
    }
    forall k | 0 <= k < h * 16
      ensures CellAt(k).y < h && IndexMap(h, 16)[CellAt(k).y][CellAt(k).x] == k
    {
      CellAtFindsIndex(k);
    }
  }

  // ---------------------------------------------------------------------
  // Where set_pixel writes
  // ---------------------------------------------------------------------

  /**
   * For x in [0, h) and y in [0, w), set_pixel(x, y) reads map[x][y], the
   * entry of column y in row x, and raises only when that entry is past the
   * end of an h * w buffer.
   */
  lemma SetPixelTargetOnPanel(h: nat, w: nat, x: int, y: int)
    requires 0 <= x < h && 0 <= y < w
    ensures PixelTarget(IndexMap(h, w), h * w, x, y)
      == if MapEntry(y, x) < h * w then Some(MapEntry(y, x)) else None
  {
  }

  /** Subscripts outside [-h, h) and [-w, w) always raise. */
  lemma SetPixelTargetOffPanel(h: nat, w: nat, x: int, y: int)
    requires !(0 <= h + x && x < h && 0 <= w + y && y < w)
    ensures PixelTarget(IndexMap(h, w), h * w, x, y) == None
  {
  }

  /** A negative row subscript addresses the same position as its wrap-around. */
  lemma SetPixelTargetWrapsRow(h: nat, w: nat, x: int, y: int)
    requires 0 <= h + x && x < 0 && 0 <= y < w
    ensures PixelTarget(IndexMap(h, w), h * w, x, y) == PixelTarget(IndexMap(h, w), h * w, h + x, y)
  {
  }

  /** A negative column subscript addresses the same position as its wrap-around. */
  lemma SetPixelTargetWrapsColumn(h: nat, w: nat, x: int, y: int)
    requires 0 <= x < h && 0 <= w + y && y < 0
    ensures PixelTarget(IndexMap(h, w), h * w, x, y) == PixelTarget(IndexMap(h, w), h * w, x, w + y)
  {
  }

  /** Two negative subscripts address the same position as their wrap-arounds. */
  lemma SetPixelTargetWraps(h: nat, w: nat, x: int, y: int)
    requires 0 <= h + x && x < 0 && 0 <= w + y && y < 0
    ensures PixelTarget(IndexMap(h, w), h * w, x, y) == PixelTarget(IndexMap(h, w), h * w, h + x, w + y)
  {
  }

  /**
   * On a square 16-by-16 panel, set_pixel accepts every (x, y) with
   * x, y in [0, 16), and distinct cells go to distinct positions.
   */
  lemma SquarePanelAcceptsEveryCell(x1: int, y1: int, x2: int, y2: int)
    requires 0 <= x1 < 16 && 0 <= y1 < 16 && 0 <= x2 < 16 && 0 <= y2 < 16
    ensures PixelTarget(IndexMap(16, 16), 256, x1, y1).Some?
    ensures PixelTarget(IndexMap(16, 16), 256, x1, y1) == PixelTarget(IndexMap(16, 16), 256, x2, y2)
      ==> x1 == x2 && y1 == y2
  {
    SetPixelTargetOnPanel(16, 16, x1, y1);
    SetPixelTargetOnPanel(16, 16, x2, y2);
    EntryDeterminesCell(y1, x1);
    EntryDeterminesCell(y2, x2);
  }

  /**
   * A 32-by-16 panel stores its map as 32 rows of 16, so set_pixel(x, y)
   * needs x < 32 and y < 16; every such pair lands in the buffer at a
   * position of its own.
   */
  lemma TallPanelAcceptsEveryCell(x1: int, y1: int, x2: int, y2: int)
    requires 0 <= x1 < 32 && 0 <= y1 < 16 && 0 <= x2 < 32 && 0 <= y2 < 16
    ensures PixelTarget(IndexMap(32, 16), 512, x1, y1).Some?
    ensures PixelTarget(IndexMap(32, 16), 512, x1, y1) == PixelTarget(IndexMap(32, 16), 512, x2, y2)
      ==> x1 == x2 && y1 == y2
  {
    SetPixelTargetOnPanel(32, 16, x1, y1);
    SetPixelTargetOnPanel(32, 16, x2, y2);
    EntryDeterminesCell(y1, x1);
    EntryDeterminesCell(y2, x2);
  }
}

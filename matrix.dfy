/**
 * The LED panel of matrix.py: a logical h-by-w pixel grid shown on a chain of
 * 16-by-16 tiles whose columns are wired in alternating directions.
 *
 * The first half of the module describes the index map as pure functions
 * (the reference the loop in `LedMatrix.GenIndexMap` is proved against);
 * the second half is the `LedMatrix` object with its pixel buffer.
 */
module Matrix {
  import opened Wrappers

  /** Tile geometry, fixed in the source. */
  const GridH: nat := 16
  const GridW: nat := 16
  const GridLen: nat := GridH * GridW

  // ---------------------------------------------------------------------
  // The quadrant rule
  // ---------------------------------------------------------------------

  /** The arms of the if/elif chain that picks a tile base, in source order. */
  datatype Arm = First | Second | Third | Fourth | NoArm

  /**
   * Which arm of the chain fires for cell (x, y). The fourth condition
   * repeats the first one, so it never fires. Cells right of column 15 in
   * the top sixteen rows, and column 16 further down, match no arm and
   * keep the carried offset.
   */
  function ArmAt(x: nat, y: nat): (a: Arm)
    ensures a != Fourth
    ensures a == NoArm <==> (x >= 16 && y < 16) || (x == 16 && y >= 16)
  {
    if x < 16 && y < 16 then First
    else if x < 16 && y >= 16 then Second
    else if x > 16 && y >= 16 then Third
    else if x < 16 && y < 16 then Fourth
    else NoArm
  }

  /**
   * The value of `grid_offset` after the chain has run on cell (x, y), given
   * the carried value: an arm that fires sets the closed-form tile base, and
   * only a cell no arm matches keeps what was carried.
   */
  function NextGridOffset(x: nat, y: nat, carried: int): (g: int)
    ensures g == (if ArmAt(x, y) == NoArm then carried else TileBase(x, y))
  {
    match ArmAt(x, y)
    case First => GridLen * 0
    case Second => GridLen * 1
    case Third => GridLen * 2
    case Fourth => GridLen * 3
    case NoArm => carried
  }

  /**
   * The tile base as a function of the cell alone: what the carried
   * `grid_offset` always equals once the chain has run on (x, y).
   */
  function TileBase(x: nat, y: nat): (b: int)
  {
    if y < 16 then 0
    else if x <= 16 then GridLen
    else 2 * GridLen
  }

  /**
   * Running the chain at the start of a row, or on the cell after one whose
   * tile base was carried correctly, yields the closed-form tile base.
   */
  lemma NextGridOffsetClosedForm(x: nat, y: nat, carried: int)
    requires x == 0 || carried == TileBase(x - 1, y)
    ensures NextGridOffset(x, y, carried) == TileBase(x, y)
  {
  }

  // ---------------------------------------------------------------------
  // Position inside a tile and the whole map
  // ---------------------------------------------------------------------

  /**
   * The position of row y inside column x % 16 of its tile: even columns run
   * downwards and odd columns upwards.
   */
  function CellOffset(x: nat, y: nat): (o: int)
    ensures 0 <= o < GridH
    ensures (x % 16) % 2 == 0 ==> o == y % 16
    ensures (x % 16) % 2 == 1 ==> o == GridH - 1 - y % 16
  {
    var tx := x % 16;
    var ty := y % 16;
    if tx % 2 > 0 then (GridH - 1) - ty else ty
  }

  /** The chain index of column x, row y: tile base, then 16 per column, then the offset. */
  function MapEntry(x: nat, y: nat): (e: int)
  {
    TileBase(x, y) + (x % 16) * GridW + CellOffset(x, y)
  }

  /** Row y of the map for a panel w cells wide. */
  function Row(y: nat, w: nat): (r: seq<int>)
    ensures |r| == w
    ensures forall x :: 0 <= x < w ==> r[x] == MapEntry(x, y)
  {
    seq(w, (x: int) requires 0 <= x => MapEntry(x, y))
  }

  /** The whole map, indexed as map[y][x]: h rows of w entries. */
  function IndexMap(h: nat, w: nat): (m: seq<seq<int>>)
    ensures |m| == h
    ensures forall y :: 0 <= y < h ==> m[y] == Row(y, w)
  {
    seq(h, (y: int) requires 0 <= y => Row(y, w))
  }

  // ---------------------------------------------------------------------
  // Python semantics used by set_pixel
  // ---------------------------------------------------------------------

  /**
   * Python's indexing of a sequence of length len by i: negative indices
   * count from the end, anything else out of range raises IndexError (None).
   */
  function PyIndex(len: nat, i: int): (r: Option<nat>)
    ensures r.Some? <==> 0 <= len + i && i < len
    ensures r.Some? ==> r.value < len
    ensures r.Some? && 0 <= i ==> r.value == i
    ensures r.Some? && i < 0 ==> r.value == len + i
  {
    if 0 <= i < len then Some(i)
    else if 0 <= len + i && i < 0 then Some(len + i)
    else None
  }

  /**
   * The buffer position `index_map[x][y]` that set_pixel writes, or None
   * when one of the three subscripts raises IndexError.
   */
  function PixelTarget(indexMap: seq<seq<int>>, numPixels: nat, x: int, y: int): (t: Option<nat>)
    ensures t.Some? ==> t.value < numPixels
  {
    match PyIndex(|indexMap|, x)
    case None => None
    case Some(row) =>
      match PyIndex(|indexMap[row]|, y)
      case None => None
      case Some(col) => PyIndex(numPixels, indexMap[row][col])
  }

  // ---------------------------------------------------------------------
  // The panel object
  // ---------------------------------------------------------------------

  /** An 8-bit color channel. */
  type Byte = c: int | 0 <= c < 256

  datatype Color = Color(r: Byte, g: Byte, b: Byte)

  const Black: Color := Color(0, 0, 0)

  /** A buffer of n black pixels. */
  function Blank(n: nat): (s: seq<Color>)
    ensures |s| == n
    ensures forall i :: 0 <= i < n ==> s[i] == Black
  {
    seq(n, _ => Black)
  }

  class LedMatrix {
    const height: nat
    const width: nat
    const numPixels: nat
    const indexMap: seq<seq<int>>
    /** The strip's pixel buffer, one color per chain position. */
    const pixels: array<Color>
    /** What the last `Update` pushed to the strip ([] before the first one). */
    var shown: seq<Color>

    ghost predicate Valid()
      reads this
    {
      numPixels == height * width &&
      pixels.Length == numPixels &&
      indexMap == IndexMap(height, width)
    }

    constructor (height: nat, width: nat)
      ensures Valid()
      ensures this.height == height && this.width == width
      ensures fresh(pixels)
      ensures pixels[..] == Blank(height * width)
      ensures shown == []
    {
      this.height := height;
      this.width := width;
      numPixels := height * width;
      pixels := new Color[height * width](_ => Black);
      var m := GenIndexMap(height, width);
      indexMap := m;
      shown := [];
    }

    /** Paints every position black without pushing anything to the strip. */
    method Clear()
      requires Valid()
      modifies pixels
      ensures Valid()
      ensures pixels[..] == Blank(numPixels)
    {
      forall i | 0 <= i < pixels.Length {
        pixels[i] := Black;
      }
    }

    /** Pushes the buffer to the strip. */
    method Update()
      requires Valid()
      modifies this`shown
      ensures Valid()
      ensures shown == pixels[..]
    {
      shown := pixels[..];
    }

    /**
     * Writes color at buffer position `index_map[x][y]` (note the order:
     * x picks the row of the map), or reports the IndexError the source
     * raises, in which case nothing changes.
     */
    method SetPixel(x: int, y: int, color: Color) returns (ok: bool)
      requires Valid()
      modifies pixels
      ensures Valid()
      ensures ok <==> PixelTarget(indexMap, numPixels, x, y).Some?
      ensures ok ==> pixels[..] == old(pixels[..])[PixelTarget(indexMap, numPixels, x, y).value := color]
      ensures !ok ==> pixels[..] == old(pixels[..])
    {
      var target := PixelTarget(indexMap, numPixels, x, y);
      if target.Some? {
        pixels[target.value] := color;
        ok := true;
      } else {
        ok := false;
      }
    }

    /**
     * Builds the index map row by row, carrying `gridOffset` from cell to
     * cell and from row to row exactly as the source does.
     */
    static method GenIndexMap(h: nat, w: nat) returns (m: seq<seq<int>>)
      ensures m == IndexMap(h, w)
    {
      var gridOffset := 0;
      var gridH, gridW := 16, 16;
      var rows: seq<seq<int>> := [];
      var y := 0;
      while y < h
        invariant 0 <= y <= h
        invariant |rows| == y
        invariant forall j :: 0 <= j < y ==> rows[j] == Row(j, w)
      {
        var row: seq<int> := [];
        var x := 0;
        while x < w
          invariant 0 <= x <= w
          invariant |row| == x
          invariant forall i :: 0 <= i < x ==> row[i] == MapEntry(i, y)
          invariant x > 0 ==> gridOffset == TileBase(x - 1, y)
        {
          NextGridOffsetClosedForm(x, y, gridOffset);
          gridOffset := NextGridOffset(x, y, gridOffset);
          var tx := x % 16;
          var ty := y % 16;
          var offset := ty;
          if tx % 2 > 0 {
            offset := (gridH - 1) - ty;
          }
          var index := gridOffset + (tx * gridW) + offset;
          row := row + [index];
          x := x + 1;
        }
        rows := rows + [row];
        y := y + 1;
      }
      m := rows;
    }
  }

  /** Clearing twice leaves the same buffer as clearing once. */
  method ClearTwice(panel: LedMatrix) returns (once: seq<Color>)
    requires panel.Valid()
    modifies panel.pixels
    ensures once == Blank(panel.numPixels)
    ensures panel.pixels[..] == once
  {
    panel.Clear();
    once := panel.pixels[..];
    panel.Clear();
  }
}

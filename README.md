# LED matrix index mapping and chat privilege rule, in Dafny

This project models the core of a Raspberry Pi LED panel driver that is controlled from Twitch chat.

The panel (`matrix.py`, class `LedMatrix`) is an h×w logical pixel grid. Physically it is a single
chain of 16×16 LED tiles, and inside each tile the columns are wired in alternating directions
(serpentine wiring). `gen_index_map` computes, once and at construction time, the chain position of
every logical cell. `clear` and `set_pixel` write into the strip's pixel buffer, and `update`
pushes that buffer to the LEDs.

The chat side (`twitchbot.py`) contributes one decision rule. `is_priv` decides whether a chat
author is a moderator or the broadcaster. The `mode` command replies only to such an author.

Files:

- `wrappers.dfy`: `Option`, used for Python's `None`-or-a-value.
- `matrix.dfy`: module `Matrix`. It holds the index map as pure reference functions:
  - the quadrant chain `ArmAt`, with its dead fourth arm;
  - the carried `grid_offset` update `NextGridOffset`, and its closed form `TileBase`;
  - the in-tile offset `CellOffset`, plus `MapEntry` and `IndexMap`.

  It also holds class `LedMatrix`, whose static method `GenIndexMap` is the source's nested
  loop, carried `grid_offset` included. That method is proved equal to `IndexMap`. The pixel
  buffer is an `array<Color>` of length `h*w`, and `update` is a snapshot field `shown`.
  The sizes, the index map and the buffer's identity are `const` fields, set once by the
  constructor. So `clear`, `set_pixel` and `update` cannot change them; they change only the
  buffer's contents or `shown`.
- `index_map_properties.dfy`: module `IndexMapProperties`, the lemmas about the map:
  - bounds and the serpentine order;
  - an inverse `CellAt` on the first two tiles;
  - an exact characterisation of the panels on which the map is injective;
  - bijectivity for 16×16 and 32×16 panels;
  - where `set_pixel` writes.
- `twitchbot.dfy`: module `TwitchBot`, with `IsPriv` and `Mode`.

Both quirks of `gen_index_map` are modelled exactly as written:

- **The state carried between cells.** `grid_offset` lives outside both loops. Cells that match
  no arm keep the previous cell's value. Those cells are: x ≥ 16 in rows 0–15, and column 16 in
  rows 16 and below.
- **The dead arm.** The fourth arm repeats the first condition, so it never fires.

The result is a closed-form tile base: 0 for y < 16, 256 for y ≥ 16 and x ≤ 16, and 512
otherwise.

`set_pixel(x, y, c)` subscripts the map as `index_map[x][y]`, but the map is built as `map[y][x]`.
The model keeps this transposition: `set_pixel(x, y)` writes the entry for column y of row x.
Python's subscripting is modelled as well. A negative index counts from the end, and anything
else out of range raises `IndexError`. The model reports that error as `ok == false` and leaves
the buffer unchanged.

Consequences of the code as written:

- Among panels built from whole 16×16 tiles, the map is a bijection onto `[0, h*w)` only for
  16×16 and 32×16 panels (`BijectiveOneTileWide`). `InjectiveExactly` shows exactly where the map is injective, and
  `WidePanelCollisions` gives the collisions on wider panels.
- Cell (16,16) gets the second tile's base, 256, carried from column 15. Only column 17 and
  beyond get 512.
- `set_pixel` raises `IndexError` out of range, and negative subscripts wrap around.

## Model

| member | source | states |
|---|---|---|
| `Matrix.ArmAt` | matrix.py:39-46 | the fourth arm never fires; no arm matches exactly when x ≥ 16 with y < 16, or x == 16 with y ≥ 16 |
| `Matrix.NextGridOffset` | matrix.py:39-46 | an arm that fires sets the closed-form tile base whatever was carried; only a cell that no arm matches keeps the carried value |
| `Matrix.NextGridOffsetClosedForm` | matrix.py:31-46 | at the start of a row (x == 0), or when the carried value is the previous cell's tile base, the chain yields the closed-form tile base: 0 for y < 16, 256 for x ≤ 16, 512 otherwise |
| `Matrix.CellOffset` | matrix.py:47-51 | the offset inside a column lies in [0, 16); it is y % 16 in even columns and 15 − y % 16 in odd ones |
| `Matrix.LedMatrix.GenIndexMap` | matrix.py:29-55 | the nested loop with the carried `grid_offset` returns h rows of w entries, and entry [y][x] is the closed-form index of column x, row y |
| `Matrix.PyIndex` | matrix.py:27 | a Python subscript succeeds exactly for i in [−len, len); the position is i, or len + i for a negative i |
| `Matrix.PixelTarget` | matrix.py:27 | the position `index_map[x][y]` that set_pixel writes, when it exists, is inside the buffer |
| `Matrix.LedMatrix.constructor` | matrix.py:6-18 | the buffer has h·w positions, all black; the index map is built once; nothing has been shown yet |
| `Matrix.LedMatrix.Clear` | matrix.py:20-21 | every buffer position becomes (0,0,0); nothing is pushed to the strip |
| `Matrix.ClearTwice` | matrix.py:20-21 | clearing twice leaves the same buffer as clearing once |
| `Matrix.LedMatrix.Update` | matrix.py:23-24 | the strip now shows exactly the buffer's contents |
| `Matrix.LedMatrix.SetPixel` | matrix.py:26-27 | when `index_map[x][y]` resolves, exactly that position becomes the color and every other position is unchanged; otherwise an IndexError is reported and nothing changes |
| `IndexMapProperties.EntriesInRange` | matrix.py:39-52 | for every h and w, every entry lies in [0, 768) |
| `IndexMapProperties.EntryParts` | matrix.py:47-52 | an entry is determined by its parts: entry / 256 gives the tile, (entry % 256) / 16 the column in the tile, entry % 16 the offset in the column |
| `IndexMapProperties.ChainStart` | matrix.py:47-52 | map[0][0] = 0, map[1][0] = 1, map[0][1] = 31, and map[15][1] = 16 |
| `IndexMapProperties.ColumnFollowsChain` | matrix.py:47-52 | one row down inside a tile is one step forward along the chain in even columns and one step back in odd columns |
| `IndexMapProperties.ColumnEndTurnsIntoNextColumn` | matrix.py:39-52 | inside a tile, the end of each column's run continues into the neighbouring cell of the next column of the same tile; column 16 from row 16 on is excluded |
| `IndexMapProperties.CellAt` | matrix.py:47-52 | the cell found for an index of the first two tiles lies in the first 16 columns and 32 rows, and in the top 16 rows for the first tile |
| `IndexMapProperties.CellAtFindsIndex` | matrix.py:39-52 | CellAt is a right inverse: the entry of CellAt(k) is k for every k in [0, 512) |
| `IndexMapProperties.EntryDeterminesCell` | matrix.py:39-52 | CellAt is a left inverse on the first 16 columns and 32 rows: CellAt(entry(x, y)) == (x, y); entries there lie in [0, 512), and in [0, 256) in the top 16 rows |
| `IndexMapProperties.InjectiveExactly` | matrix.py:36-54 | the map has no two equal entries if and only if the panel is empty, or at most 16 wide and 32 tall |
| `IndexMapProperties.WidePanelCollisions` | matrix.py:39-52 | on panels wider than 16: map[0][0] = map[0][16] = 0 and map[16][0] = map[16][16] = 256, while map[16][17] = 543 is in the third tile |
| `IndexMapProperties.BijectiveOneTileWide` | matrix.py:36-54 | for (h, w) = (16, 16) or (32, 16) the map is a bijection onto [0, h·w): injective, in range, and every index is hit at CellAt(index) |
| `IndexMapProperties.SetPixelTargetOnPanel` | matrix.py:26-27 | for 0 ≤ x < h and 0 ≤ y < w, set_pixel(x, y) writes the entry of column y in row x, or raises when that entry is ≥ h·w |
| `IndexMapProperties.SetPixelTargetOffPanel` | matrix.py:26-27 | when x is outside [−h, h) or y is outside [−w, w), set_pixel raises |
| `IndexMapProperties.SetPixelTargetWraps` | matrix.py:26-27 | two negative subscripts address the same position as x + h, y + w |
| `IndexMapProperties.SetPixelTargetWrapsRow` | matrix.py:26-27 | a negative x with an in-range y addresses the same position as x + h, y |
| `IndexMapProperties.SetPixelTargetWrapsColumn` | matrix.py:26-27 | an in-range x with a negative y addresses the same position as x, y + w |
| `IndexMapProperties.SquarePanelAcceptsEveryCell` | matrix.py:26-27 | on a 16×16 panel, set_pixel accepts every (x, y) in [0,16)², and distinct pairs write distinct positions |
| `IndexMapProperties.TallPanelAcceptsEveryCell` | matrix.py:26-27 | on a 32×16 panel, set_pixel accepts x < 32 and y < 16, and distinct pairs write distinct positions |
| `TwitchBot.IsPriv` | twitchbot.py:27-37 | no user is not privileged; a moderator always is; a non-moderator without badges is not; otherwise a user is privileged exactly when the "broadcaster" badge is present with value "1" |
| `TwitchBot.MissingBroadcasterBadge` | twitchbot.py:35-37 | a missing "broadcaster" key defaults to "0", so a non-moderator without that key is not privileged |
| `TwitchBot.Mode` | twitchbot.py:20-25 | the command replies exactly when the author is privileged, and the reply is "Hello <name>!" |

## Left out

- The neopixel hardware layer is not modelled: the board pin, GRB channel order, brightness 0.2
  and `auto_write=False`. The strip is a plain array of RGB triples. `show()` is modelled as
  recording a snapshot of the buffer in `shown`.
- The constructor's all-black start reflects the strip library's zero-filled buffer. That
  library is not part of this model.
- Colors are triples of bytes. The strip library's own checks on a color value (its type, any
  channel outside 0–255, a fourth white channel) are not modelled.
- Panel dimensions are natural numbers. When one size is negative and the other positive, the
  pixel count `height*width` is negative and the strip cannot be built. Two cases do build in
  the source but are not modelled:
  - one size negative and the other 0: an empty strip with an empty index map;
  - both sizes negative: a strip of `height*width` pixels with an empty index map.

  The map is empty in both because `range` of a negative number or of 0 is empty, and on such a
  panel every `set_pixel` raises `IndexError`.
- `set_pixel` with a non-integer or slice subscript (Python's dynamic typing) is not modelled.
  Only integer coordinates are.
- The lists built by `gen_index_map` are modelled as immutable sequences. The source builds
  fresh lists and never mutates them afterwards, so no aliasing is lost.
- twitchbot.py: the twitchio networking is not modelled: the `Bot` constructor, `event_ready`
  and its console output, and `event_message` with its echo filter and command dispatch. Also
  not modelled: the asynchronous `ctx.send`, whose message `Mode` returns instead, and the
  module-level startup, which calls `Bot()` without its required arguments.
- Image decoding, animation playback and text rasterisation are not part of this model.

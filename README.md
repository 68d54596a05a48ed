# GPSMining map tiles in Dafny

A model of the integer core behind the GPSMining map. The map uses a
Mercator projection at zoom levels 0 to 19 and draws OpenStreetMap raster
tiles around the player. The model covers four parts of the C# game:

- **`Util.Mod`** (`util.dfy`, module `Util`): the positive modulo that wraps
  x coordinates. C#'s truncating division and remainder are written out
  (`TruncDiv`, `TruncRem`). `Mod` is then proved equal to the Euclidean
  remainder.
- **`MercatorMap`** (`mercator.dfy`, module `Mercator`):
  - the map's size at a zoom level (`TileSize << zoom`);
  - `Align`, which wraps x around the map and clamps y;
  - a class holding the zoom level and position. Its methods are
    `ZoomIn`, `ZoomOut` (recursive in C#, loops here) and `Move`.
- **`OSMTiles`** (`osm_tiles.dfy`, module `OsmTiles`): the tile slots
  rendered around the current map tile.
  - The nested zoom → x → y dictionary of sprites is a flat map from
    `TileKey(zoom, x, y)` to a `Slot` record (texture, visibility, offset).
  - `buckets` records which x dictionaries exist.
  - A ghost log records every `RequestTexture` call.
  - `RenderTiles` keeps its nested loops. Each loop level is its own method:
    `RenderWindow` over the columns, `RenderColumn` for one column,
    `RenderRows` over the rows and `RenderCell` for one row. Each is proved
    against specification functions: `WindowOrder`/`ColumnOrder` give the
    order of requests and `Rendered`/`Finished`/`AfterRender` give the
    resulting slots.
- **`TileDownloader`** (`downloader.dfy`, module `Downloader`): tile IDs,
  the real-x wrap, and the cache state machine:
  - a missing tile is downloaded;
  - a stale tile is deleted and requested again;
  - a fresh tile is read from disk.

  The cache directory is a map from tile ID to modification time, and the
  current time is a parameter. The outcomes of HTTP requests and decodes
  are parameters of the method that observes them. Emitted `TextureReady`
  signals, calls to `HttpRequest.Request` and scheduled work (deferred calls,
  worker-pool tasks, requests in flight) are recorded in sequences.

The constants come from `src/Globals.cs`: `TileCacheTime` = 604800,
`TileSize` = 256, `CleanDistanceFactor` = 2, `RenderedTilesMax` = 1000,
`DefaultZoomLevel` = 17, `MaxZoomLevel` = 19.

Two behaviours of the source are modelled as written:

- `OnRequestCompleted` checks only the transport result and ignores the
  HTTP status code, so a completed transfer with an error status counts as
  a success when its body decodes as PNG.
- `LoadTextureFromDisk` deletes a corrupted cache file and requests the
  tile again, with no bound on these retries.

## Model

| member | source | states |
|---|---|---|
| Util.TruncDiv | src/MercatorMap.cs:141 | C#'s integer division rounds toward zero: for a positive divisor b, b × q lies at most b - 1 below a non-negative dividend and at most b - 1 above a negative one; for a non-negative dividend it is the Euclidean quotient |
| Util.TruncRem | src/Util.cs:28 | C#'s `%`: dividend = divisor × truncated quotient + remainder, the remainder is smaller than the divisor in magnitude and takes the dividend's sign |
| Util.Mod | src/Util.cs:22-38 | for a positive base the result lies in [0, r) and equals the Euclidean remainder, so it is congruent to the dividend |
| Util.ModOfInRange | src/Util.cs:34-37 | a value already in [0, r) comes back unchanged |
| Util.ModOfNegativeMultiple | src/Util.cs:28-30 | a negative exact multiple of the base maps to 0, not to the base |
| Util.ModExample | src/Util.cs:26-27 | the comment's example: -3 modulo 5 is 2 |
| Util.TruncRemIsNotPositive | src/Util.cs:24-32 | the truncating remainder of -3 by 5 is -3, outside [0, 5), while `Mod` gives 2 |
| Util.ModIdempotent | src/Util.cs:22-38 | applying `Mod` twice equals applying it once |
| Util.ModShift | src/Util.cs:22-38 | dividends differing by a multiple of the base have the same modulo (the wrap is periodic) |
| Mercator.GetMaxPosition | src/MercatorMap.cs:68-71 | `TileSize << zoom`, the exclusive maximum position on either axis: a whole number of tiles, at least one |
| Mercator.MaxPositionDoubles | src/MercatorMap.cs:68-71 | the map size exactly doubles with each zoom level |
| Mercator.MaxPositionFitsInt32 | src/MercatorMap.cs:68-71 | up to `MaxZoomLevel` the map size is between 256 and 2^27, so positions and their doubles fit in a 32-bit int |
| Mercator.Align | src/MercatorMap.cs:80-90 | the result is on the map; x is the Euclidean remainder by the map size; y is clamped to 0 below, to max - 1 above, and kept in between; a position on the map is returned unchanged |
| Mercator.AlignIdempotent | src/MercatorMap.cs:80-90 | aligning an aligned position changes nothing |
| Mercator.AlignExamples | src/MercatorMap.cs:85-86 | x = max + 5 wraps to 5 and x = -5 to max - 5; y = -10 clamps to 0 and y = max + 10 to max - 1 |
| Mercator.Double | src/MercatorMap.cs:121 | `_currentPosition *= 2`, which a following `/= 2` undoes exactly |
| Mercator.Halve | src/MercatorMap.cs:141 | `_currentPosition /= 2` by C#'s truncating division: twice the result equals an even coordinate, and is one nearer zero than an odd one |
| Mercator.ZoomedInScales | src/MercatorMap.cs:121 | k doublings multiply the position by 2^k |
| Mercator.ZoomedOutDivides | src/MercatorMap.cs:141 | k truncating halvings of a position on the map divide it by 2^k |
| Mercator.ZoomOutUndoesZoomIn | src/MercatorMap.cs:114-148 | halving k times after doubling k times restores any position |
| Mercator.DoubleInBounds | src/MercatorMap.cs:121-122 | doubling a position on the map gives a position on the map one level up |
| Mercator.HalveInBounds | src/MercatorMap.cs:141-142 | halving a position on the map gives a position on the map one level down |
| Mercator.MercatorMap.constructor | src/MercatorMap.cs:14-20 | starts at the default zoom level, at the centre of the map |
| Mercator.MercatorMap.ZoomIn | src/MercatorMap.cs:114-128 | the zoom becomes min(zoom + levels, 19) and nothing changes for levels < 1; the position is doubled once per level applied; zoom and position stay valid |
| Mercator.MercatorMap.ZoomOut | src/MercatorMap.cs:134-148 | the zoom becomes max(zoom - levels, 0) and nothing changes for levels < 1; the position is halved (truncating) once per level applied; zoom and position stay valid |
| Mercator.MercatorMap.Move | src/MercatorMap.cs:155-166 | the position becomes `Align(move)` when absolute and `Align(move + position)` otherwise; the zoom is unchanged |
| Mercator.ZoomRoundTrip | src/MercatorMap.cs:114-148 | when no level is clamped, zooming in k levels and then out k levels restores the zoom and the exact position |
| Downloader.GetTileID | src/TileDownloader.cs:46-49 | the ID `z{zoom}x{x}y{y}` parses back to (zoom, x, y) |
| Downloader.TileIDParses | src/TileDownloader.cs:48 | the string `z` + zoom + `x` + x + `y` + y splits at its first `x` and the following `y` into the three formatted integers, which read back to zoom, x and y |
| Downloader.TileIDExample | src/TileDownloader.cs:48 | the ID of tile (10, 20) at zoom 5 is `z5x10y20` |
| Downloader.NatToStringRoundTrip | src/TileDownloader.cs:48 | reading back the decimal digits of a natural number gives the number |
| Downloader.IntToStringRoundTrip | src/TileDownloader.cs:48 | reading back a formatted integer, minus sign included, gives the integer |
| Downloader.GetTileIDInjective | src/TileDownloader.cs:46-49 | two tiles with the same ID have the same zoom, x and y, so distinct tiles have distinct cache files |
| Downloader.RealX | src/TileDownloader.cs:124 | the real x lies in [0, 2^zoom) and is the displayed x modulo 2^zoom |
| Downloader.Classify | src/TileDownloader.cs:128-148 | the branch `RequestTexture` takes, each as an if-and-only-if: absent exactly when there is no cache entry, stale exactly when the entry is more than `TileCacheTime` seconds old, fresh exactly when it is at most that old |
| Downloader.FreshnessBoundary | src/TileDownloader.cs:136-144 | an entry exactly `TileCacheTime` seconds old, or younger, is fresh; one second older is stale |
| Downloader.TileDownloader.constructor | src/TileDownloader.cs:191-194 | starts from the cache directory found on disk, with nothing emitted, fetched or scheduled |
| Downloader.TileDownloader.RequestTexture | src/TileDownloader.cs:122-151 | exactly one of three branches, chosen by the real tile's cache entry. Absent: the tile is downloaded. Older than the cache time: the entry is deleted and the request deferred. Otherwise: a disk read is scheduled. The cache key and URL use the real x; the emitted signal and the scheduled work carry the displayed x |
| Downloader.TileDownloader.UpdateTile | src/TileDownloader.cs:59-67 | removes exactly the tile's cache entry, then schedules a deferred re-request for the displayed x |
| Downloader.TileDownloader.LoadTextureFromDisk | src/TileDownloader.cs:77-89 | a file that decodes emits the loaded texture for the displayed x and changes nothing else; one that does not decode is deleted and re-requested, and nothing is emitted |
| Downloader.TileDownloader.DownloadTexture | src/TileDownloader.cs:99-113 | calls `HttpRequest.Request` once for (zoom, real x, y); if it does not start, emits the failed texture for the displayed x and the cache is unchanged |
| Downloader.TileDownloader.OnRequestCompleted | src/TileDownloader.cs:165-189 | a transport failure or an undecodable body emits the failed texture and leaves the cache and schedule alone; otherwise the real tile's cache entry is written at the current time, and then its disk read is scheduled |
| Downloader.RefreshDownloads | src/TileDownloader.cs:122-151 | a stale entry is deleted before the re-request, so the re-request takes the download branch: `HttpRequest.Request` is called exactly once and the entry stays absent |
| Downloader.FirstDownloadThenDiskRead | src/TileDownloader.cs:122-189 | for every tile, from an empty cache: one download of (zoom, real x, y), one cache entry under the real tile's ID, and one loaded texture delivered for the displayed x; a second request within the cache time schedules a disk read with no new download |
| OsmTiles.GetTile | src/OSMTiles.cs:57-60 | truncating division by 256: a non-negative coordinate lies in [t × 256, t × 256 + 256), a negative one in (t × 256 - 256, t × 256] |
| OsmTiles.GetTilePosition | src/OSMTiles.cs:67-70 | the tile's upper-left corner: a multiple of 256 on both axes, which `GetTile` maps back to the tile |
| OsmTiles.CornerInTile | src/OSMTiles.cs:59 | a multiple of 256, negative or not, truncates back to its factor |
| OsmTiles.GetMaxTile | src/OSMTiles.cs:78-81 | `1 << zoom`: at least 1, and the map size over the tile size |
| OsmTiles.MaxTileMatchesMaxPosition | src/OSMTiles.cs:67-81 | the corner of tile (max, max) is the map's exclusive maximum position |
| OsmTiles.CeilDiv | src/OSMTiles.cs:90-91 | the ceiling of n / d: the smallest count of d-sized parts covering n |
| OsmTiles.WindowKeys | src/OSMTiles.cs:119-141 | the window's keys are exactly the tiles of the current zoom within the window whose row is on the map |
| OsmTiles.WindowColumns | src/OSMTiles.cs:119-141 | the keys of columns [lo, hi) and rows [ylo, yhi) that are on the map |
| OsmTiles.ColumnKeys | src/OSMTiles.cs:128-139 | the keys of one column, rows [ylo, yhi), that are on the map |
| OsmTiles.Evicted | src/OSMTiles.cs:216 | the eviction criterion: another zoom level, or more than twice the window away along either axis |
| OsmTiles.RenderCoversWindow | src/OSMTiles.cs:111-174 | after `RenderTiles` every tile of the window with its row on the map has a slot, even after a clean-up |
| OsmTiles.RenderCreatesOnlyWindowTiles | src/OSMTiles.cs:119-141 | a slot that is new after rendering belongs to a window tile whose row is on the map, and it is created with the loading texture; a slot that was already there keeps its texture |
| OsmTiles.RenderEvictsOnlyFarSlots | src/OSMTiles.cs:143-147 | a slot disappears only when the count after rendering passed the ceiling and the slot meets the eviction criterion |
| OsmTiles.RenderVisibility | src/OSMTiles.cs:150-173 | after rendering, a slot is visible exactly when it is of the current zoom, and then it sits at (x, y) × 256 - map position |
| OsmTiles.EvictionExample | src/OSMTiles.cs:216 | with a window of 3 around tile (0, 0), column 7 is evicted and column 6 is kept |
| OsmTiles.ColumnRange | src/OSMTiles.cs:119 | the columns lo up to but excluding hi |
| OsmTiles.Columns | src/OSMTiles.cs:119-126 | the columns the outer loop visits: those at most `amount` from the centre |
| OsmTiles.ColumnOrderMembers | src/OSMTiles.cs:128-139 | one column requests exactly its rows on the map that have no slot |
| OsmTiles.ColumnOrderDistinct | src/OSMTiles.cs:128-139 | one column requests no tile twice |
| OsmTiles.WindowOrderMembers | src/OSMTiles.cs:119-141 | the window requests exactly its tiles on the map that have no slot |
| OsmTiles.WindowOrderDistinct | src/OSMTiles.cs:119-141 | the window requests no tile twice |
| OsmTiles.RequestedExactlyMissing | src/OSMTiles.cs:119-141 | `RenderTiles` requests exactly the window tiles without a slot, each once |
| OsmTiles.AddNewMembers | src/OSMTiles.cs:135-138 | giving a sequence of tiles new slots adds exactly those keys, with the loading slot, and keeps every other slot |
| OsmTiles.AddNewConcat | src/OSMTiles.cs:119-141 | adding the tiles of a then those of b is adding a + b |
| OsmTiles.RequestedRenders | src/OSMTiles.cs:119-141 | giving every requested tile a new slot yields `Rendered`, the set-based definition of the filled window |
| OsmTiles.RowStep | src/OSMTiles.cs:128-139 | one row extends the column's order and the slots alike |
| OsmTiles.ColumnStep | src/OSMTiles.cs:119-141 | one column extends the window's order and the slots alike |
| OsmTiles.RowLogIsAppend | src/OSMTiles.cs:128-139 | the requests made row by row are the log followed by the column's order |
| OsmTiles.WindowLogIsAppend | src/OSMTiles.cs:119-141 | the requests made column by column are the log followed by the window's order |
| OsmTiles.CellUnvisited | src/OSMTiles.cs:135 | the cell about to be visited has a slot exactly when it had one before the window began |
| OsmTiles.ColumnsAdded | src/OSMTiles.cs:123-126 | the zoom's dictionary stays present while columns are added one at a time |
| OsmTiles.ColumnsAddedRange | src/OSMTiles.cs:119-126 | adding the columns one at a time adds the whole range to the zoom's set |
| OsmTiles.NewBuckets | src/OSMTiles.cs:113-126 | after rendering, the zoom's dictionary exists and holds every window column, even one whose rows are all skipped; other zooms' dictionaries are unchanged and none is lost |
| OsmTiles.WindowRendered | src/OSMTiles.cs:113-141 | the loops of `RenderTiles` leave the slots of `Rendered`, the window's columns added to the zoom's dictionary, and every slot and request attached to a column dictionary |
| OsmTiles.FinishedKeeps | src/OSMTiles.cs:143-173 | the clean-up and the visibility pass create no slot, and the visibility pass keeps the number of slots |
| OsmTiles.BucketedAfterWindow | src/OSMTiles.cs:113-141 | after rendering, every slot and every requested tile has its column dictionary |
| OsmTiles.OSMTiles.constructor | src/OSMTiles.cs:16-49 | window amounts 3 and 3, zoom 0, position and tile at the origin, no slots, no dictionaries, no requests |
| OsmTiles.OSMTiles.UpdateSize | src/OSMTiles.cs:88-92 | each amount is the ceiling of the viewport size over 1024 pixels: enough to cover it, and no more; nothing else changes |
| OsmTiles.OSMTiles.Move | src/OSMTiles.cs:99-105 | sets position, zoom and tile, then renders: the slots, dictionaries and request log are those of `RenderTiles` at the new place |
| OsmTiles.OSMTiles.RenderTiles | src/OSMTiles.cs:111-174 | the slots become `AfterRender` of the old ones (window filled, cleaned past the ceiling, visibility updated); the zoom's dictionary gains the window's columns; the log gains the window's missing tiles in loop order; the counter stays equal to the number of slots |
| OsmTiles.OSMTiles.FinishRender | src/OSMTiles.cs:143-173 | clean-up only past the ceiling, then the visibility pass; the counter and dictionaries stay consistent |
| OsmTiles.OSMTiles.RenderWindow | src/OSMTiles.cs:119-141 | the outer loop gives each missing window tile a slot and requests it, in column-then-row order, and adds each column to the zoom's dictionary |
| OsmTiles.OSMTiles.RenderColumn | src/OSMTiles.cs:121-140 | one column: its dictionary is added, and its missing rows get slots and requests |
| OsmTiles.OSMTiles.RenderRows | src/OSMTiles.cs:128-140 | the inner loop gives the column's missing rows on the map slots and requests, top to bottom |
| OsmTiles.OSMTiles.RenderCell | src/OSMTiles.cs:130-138 | a row off the map is skipped; a tile on the map without a slot gets one, and nothing else does |
| OsmTiles.OSMTiles.RenderTile | src/OSMTiles.cs:182-195 | a missing tile gets a new loading slot, the counter grows by one and exactly one request is logged |
| OsmTiles.OSMTiles.CleanTiles | src/OSMTiles.cs:201-232 | removes exactly the slots of another zoom or farther than twice the window on either axis, keeps the others unchanged, and the counter still equals the number of slots |
| OsmTiles.OSMTiles.UpdateVisibility | src/OSMTiles.cs:150-173 | every slot of the current zoom is shown at its tile's offset from the map position; every other slot is hidden where it was |
| OsmTiles.OSMTiles.OnTextureReady | src/OSMTiles.cs:242-249 | binds the texture when the slot still exists; otherwise the slots are unchanged |

## Left out

- Latitude/longitude conversions (`MercatorMap.GetPosition`, `GetLongitude`, `GetLatitude`): trigonometry and floating-point rounding.
- `GPSMap`, `NoiseMap`, `NoiseSphere`, the noise library and `TextureRequest` are not part of this model. They are Godot scene code, floating-point noise and an unused record.
- Util.Mod: modelled over `int`. The source computes it on `double`, but every caller passes integers and casts the result back to `int`.
- The model uses unbounded integers. `MaxPositionFitsInt32` shows that map positions fit a 32-bit int up to the maximum zoom. Window arithmetic near the int limits is not modelled.
- OsmTiles.OSMTiles.OnTextureReady: requires the tile's column dictionary to exist. The source indexes it unchecked and would throw otherwise. `Bucketed()` proves that the dictionary exists for every requested tile.
- OsmTiles.OSMTiles.RenderTiles: `OSMTiles` and `TileDownloader` are not composed; a request is only logged. When the tile has no cache entry and its HTTP request fails to start, `DownloadTexture` emits the failed texture synchronously, so the new slot may hold that texture before `RenderTiles` returns if the signal's connection is not deferred. The model states only that each new slot is created with the loading texture.
- OsmTiles.OSMTiles.RenderTile: requires the key to be missing. Its only caller checks this; the source would otherwise replace the sprite and still count it.
- The nested dictionaries are a flat map plus the set of x dictionaries per zoom. Empty y dictionaries appear only as members of `buckets`.
- The iteration order of the dictionaries in `CleanTiles` and the visibility pass is left open: the loops pick any remaining key. Both loops are order-independent.
- Sprites, `AddChild`, `QueueFree`, textures and the sprite's `Centered` flag are reduced to the slot record. A decoded image is an integer handle.
- `UpdateSize` takes a non-negative integer viewport size. It does not take the float `Vector2`.
- HTTP, the worker thread pool, `CallDeferred`, PNG decoding and WebP encoding are not modelled as such. Their outcomes are parameters of the step that observes them, and deferred or pooled work is recorded as a scheduled task rather than run. The deferred emission in `LoadTextureFromDisk` is recorded in the event log at once.
- The result of `SaveWebp` is ignored by the source. The model assumes the save succeeds.
- The time difference is `now - mtime` on integers. The float floor of the system clock is a parameter.
- The whole request pipeline is not proved to terminate: a cache file that keeps failing to decode is re-requested without bound.
- Diagnostics (`GD.PushError`, `GD.Print`), the default arguments of `ZoomIn`, `ZoomOut` and `Move` (the methods take every argument explicitly), and the freeing of the `HttpRequest` node in `OnRequestCompleted` are not modelled; no other behaviour depends on them.
- Downloader.IntToString: the minus sign is hard-coded, whereas C#'s interpolation uses the current culture's negative sign. Every tile ID is built from non-negative values (real x, an on-map y, a zoom), so no ID contains a sign.
- Concurrency between requests (two downloads of one tile, tasks on several threads) is not modelled. Each method is one atomic step.

/**
 * `OSMTiles`: the set of rendered tile slots around the current map
 * position. The source keeps its slots in dictionaries nested zoom, then
 * x, then y; here they are one map from (zoom, x, y) to a slot record,
 * and `buckets` records which (zoom, x) dictionaries exist, since the
 * source creates them even when every y of the column is skipped and
 * never removes them.
 */
module OsmTiles {
  import opened Util
  import opened Mercator
  import opened Downloader

  const CleanDistanceFactor: int := 2
  const RenderedTilesMax: int := 1000
  /** `2 * TileSize * TileScale`: pixels of viewport covered per tile of margin. */
  const PixelsPerTileAmount: int := 2 * 256 * 2

  /** A tile's sprite: its texture, whether it is shown, and its position on screen. */
  datatype Slot = Slot(texture: Texture, visible: bool, offset: Vec)

  /** A new sprite: the loading texture, visible (Godot's default), at the origin. */
  const NewSlot: Slot := Slot(Loading, true, Vec(0, 0))

  // ---- Tile addressing ----

  /**
   * `GetTile`: the tile holding a position, by C#'s truncating division.
   * A non-negative coordinate lies in its tile's span; a negative one is
   * rounded toward zero, so it lies in the span of the tile before.
   */
  function GetTile(position: Vec): (t: Vec)
    ensures position.x >= 0 ==> t.x * TileSize <= position.x < t.x * TileSize + TileSize
    ensures position.y >= 0 ==> t.y * TileSize <= position.y < t.y * TileSize + TileSize
    ensures position.x < 0 ==> t.x * TileSize - TileSize < position.x <= t.x * TileSize
    ensures position.y < 0 ==> t.y * TileSize - TileSize < position.y <= t.y * TileSize
  {
    Vec(TruncDiv(position.x, TileSize), TruncDiv(position.y, TileSize))
  }

  /** `GetTilePosition`: the upper-left corner of a tile, which `GetTile` maps back to the tile. */
  function GetTilePosition(tile: Vec): (p: Vec)
    ensures p.x % TileSize == 0 && p.y % TileSize == 0
    ensures GetTile(p) == tile
  {
    var p := Vec(tile.x * TileSize, tile.y * TileSize);
    CornerInTile(tile.x);
    CornerInTile(tile.y);
    p
  }

  /** A tile's corner coordinate truncates back to the tile. */
  lemma {:induction false} CornerInTile(t: int)
    ensures TruncDiv(t * TileSize, TileSize) == t
  {
    if t >= 0 {
      EuclidUnique(t * TileSize, TileSize, t, 0);
    } else {
      EuclidUnique(-t * TileSize, TileSize, -t, 0);
    }
  }

  /** `GetMaxTile`: `1 << zoom` tiles along either axis, the map's width in tiles. */
  function GetMaxTile(zoom: nat): (n: nat)
    ensures n >= 1
    ensures n == GetMaxPosition(zoom) / TileSize
  {
    EuclidUnique(GetMaxPosition(zoom), TileSize, Pow2(zoom), 0);
    Pow2(zoom)
  }

  /** The corner of the tile past the last one is the map's exclusive maximum. */
  lemma {:induction false} MaxTileMatchesMaxPosition(zoom: nat)
    ensures GetTilePosition(Vec(GetMaxTile(zoom), GetMaxTile(zoom))) == Vec(GetMaxPosition(zoom), GetMaxPosition(zoom))
  {
  }

  /** `Ceil(n / d)` on a non-negative integer: the fewest `d`-sized parts covering `n`. */
  function CeilDiv(n: nat, d: nat): (r: nat)
    requires d > 0
    ensures r * d >= n
    ensures r == 0 || (r - 1) * d < n
  {
    var q := (n + d - 1) / d;
    DivModSplit(n + d - 1, d);
    q
  }

  // ---- The rendered window, eviction and visibility ----

  /**
   * Tile `k` is in the window of `ax` columns and `ay` rows either side of
   * `tile` at `zoom`, and its row is on the map.
   */
  predicate InWindow(k: TileKey, zoom: nat, tile: Vec, ax: int, ay: int)
  {
    k.zoom == zoom && Abs(k.x - tile.x) <= ax && Abs(k.y - tile.y) <= ay && 0 <= k.y < GetMaxTile(zoom)
  }

  /** The window's keys, column by column. */
  function WindowKeys(zoom: nat, tile: Vec, ax: int, ay: int): (w: set<TileKey>)
    ensures forall k :: k in w <==> InWindow(k, zoom, tile, ax, ay)
  {
    WindowColumns(zoom, tile.y - ay, tile.y + ay + 1, tile.x - ax, tile.x + ax + 1)
  }

  /** The keys on the map of columns [lo, hi), rows [ylo, yhi). */
  function WindowColumns(zoom: nat, ylo: int, yhi: int, lo: int, hi: int): (w: set<TileKey>)
    ensures forall k :: k in w <==> k.zoom == zoom && lo <= k.x < hi && ylo <= k.y < yhi && 0 <= k.y < GetMaxTile(zoom)
    decreases hi - lo
  {
    if hi <= lo then {} else WindowColumns(zoom, ylo, yhi, lo, hi - 1) + ColumnKeys(zoom, hi - 1, ylo, yhi)
  }

  /** The keys on the map of column `x`, rows [ylo, yhi). */
  function ColumnKeys(zoom: nat, x: int, ylo: int, yhi: int): (w: set<TileKey>)
    ensures forall k :: k in w <==> k.zoom == zoom && k.x == x && ylo <= k.y < yhi && 0 <= k.y < GetMaxTile(zoom)
    decreases yhi - ylo
  {
    if yhi <= ylo then {}
    else ColumnKeys(zoom, x, ylo, yhi - 1) + (if 0 <= yhi - 1 < GetMaxTile(zoom) then {TileKey(zoom, x, yhi - 1)} else {})
  }

  /**
   * The eviction criterion of `CleanTiles`: another zoom level, or farther
   * than `CleanDistanceFactor` times the window along either axis.
   */
  predicate Evicted(k: TileKey, zoom: int, tile: Vec, ax: int, ay: int)
  {
    zoom != k.zoom || Abs(tile.x - k.x) > ax * CleanDistanceFactor || Abs(tile.y - k.y) > ay * CleanDistanceFactor
  }

  /** The slots `CleanTiles` keeps. */
  function Cleaned(m: map<TileKey, Slot>, zoom: int, tile: Vec, ax: int, ay: int): map<TileKey, Slot>
  {
    map k | k in m && !Evicted(k, zoom, tile, ax, ay) :: m[k]
  }

  /** The slots after the window's missing tiles get a new slot. */
  function Rendered(m: map<TileKey, Slot>, zoom: nat, tile: Vec, ax: int, ay: int): map<TileKey, Slot>
  {
    map k | k in m.Keys + WindowKeys(zoom, tile, ax, ay) :: if k in m then m[k] else NewSlot
  }

  /** A slot of the current zoom is shown at its tile's offset from the map position; others are hidden. */
  function ShowSlot(s: Slot, k: TileKey, zoom: int, position: Vec): Slot
  {
    if k.zoom == zoom then s.(visible := true, offset := Sub(GetTilePosition(Vec(k.x, k.y)), position))
    else s.(visible := false)
  }

  function Shown(m: map<TileKey, Slot>, zoom: int, position: Vec): map<TileKey, Slot>
  {
    map k | k in m :: ShowSlot(m[k], k, zoom, position)
  }

  /** The slots after the clean-up, run only past the ceiling, and the visibility pass. */
  function Finished(m: map<TileKey, Slot>, zoom: int, tile: Vec, position: Vec, ax: int, ay: int): map<TileKey, Slot>
  {
    Shown(if |m| > RenderedTilesMax then Cleaned(m, zoom, tile, ax, ay) else m, zoom, position)
  }

  /** The slots after `RenderTiles`: render the window, clean up past the ceiling, update visibility. */
  function AfterRender(m: map<TileKey, Slot>, zoom: nat, tile: Vec, position: Vec, ax: int, ay: int): map<TileKey, Slot>
  {
    Finished(Rendered(m, zoom, tile, ax, ay), zoom, tile, position, ax, ay)
  }

  /** Every tile of the window has a slot after rendering, even after a clean-up. */
  lemma {:induction false} RenderCoversWindow(m: map<TileKey, Slot>, zoom: nat, tile: Vec, position: Vec, ax: int, ay: int, k: TileKey)
    requires InWindow(k, zoom, tile, ax, ay)
    ensures k in AfterRender(m, zoom, tile, position, ax, ay)
  {
    assert !Evicted(k, zoom, tile, ax, ay);
  }

  /**
   * Rendering only creates slots for window tiles (so never for a row off
   * the map), each created with the loading texture, and keeps the texture
   * of every slot it does not evict.
   */
  lemma {:induction false} RenderCreatesOnlyWindowTiles(m: map<TileKey, Slot>, zoom: nat, tile: Vec, position: Vec, ax: int, ay: int, k: TileKey)
    requires k in AfterRender(m, zoom, tile, position, ax, ay)
    ensures k !in m ==> InWindow(k, zoom, tile, ax, ay) && 0 <= k.y < GetMaxTile(zoom)
    ensures k !in m ==> AfterRender(m, zoom, tile, position, ax, ay)[k].texture == Loading
    ensures k in m ==> AfterRender(m, zoom, tile, position, ax, ay)[k].texture == m[k].texture
  {
  }

  /** A slot disappears only when the ceiling was passed and the slot is far or of another zoom. */
  lemma {:induction false} RenderEvictsOnlyFarSlots(m: map<TileKey, Slot>, zoom: nat, tile: Vec, position: Vec, ax: int, ay: int, k: TileKey)
    requires k in m && k !in AfterRender(m, zoom, tile, position, ax, ay)
    ensures |Rendered(m, zoom, tile, ax, ay)| > RenderedTilesMax
    ensures Evicted(k, zoom, tile, ax, ay)
  {
  }

  /** After rendering, a slot is visible exactly when it is of the current zoom, at its tile's offset. */
  lemma {:induction false} RenderVisibility(m: map<TileKey, Slot>, zoom: nat, tile: Vec, position: Vec, ax: int, ay: int, k: TileKey)
    requires k in AfterRender(m, zoom, tile, position, ax, ay)
    ensures AfterRender(m, zoom, tile, position, ax, ay)[k].visible <==> k.zoom == zoom
    ensures k.zoom == zoom ==>
      AfterRender(m, zoom, tile, position, ax, ay)[k].offset == Vec(k.x * TileSize - position.x, k.y * TileSize - position.y)
  {
  }

  /** With a window of 3 around tile (0, 0), column 7 is evicted and column 6 is kept. */
  lemma {:induction false} EvictionExample()
    ensures Evicted(TileKey(0, 7, 0), 0, Vec(0, 0), 3, 3)
    ensures !Evicted(TileKey(0, 6, 0), 0, Vec(0, 0), 3, 3)
  {
  }

  lemma {:induction false} RemoveOneSlot(m: map<TileKey, Slot>, k: TileKey)
    requires k in m
    ensures |m - {k}| == |m| - 1
  {
    assert (m - {k}).Keys == m.Keys - {k};
  }

  /** The columns `lo` up to but excluding `hi`. */
  function ColumnRange(lo: int, hi: int): (r: set<int>)
    ensures forall c :: c in r <==> lo <= c < hi
    decreases hi - lo
  {
    if hi <= lo then {} else ColumnRange(lo, hi - 1) + {hi - 1}
  }

  /** The columns at most `amount` away from `center`. */
  function Columns(center: int, amount: int): (r: set<int>)
    ensures forall c :: c in r <==> Abs(c - center) <= amount
  {
    ColumnRange(center - amount, center + amount + 1)
  }

  /** No element occurs twice. */
  ghost predicate Distinct(s: seq<TileKey>)
  {
    forall i, j :: 0 <= i < j < |s| ==> s[i] != s[j]
  }

  lemma {:induction false} DistinctConcat(a: seq<TileKey>, b: seq<TileKey>)
    requires Distinct(a) && Distinct(b)
    requires forall k :: k in b ==> k !in a
    ensures Distinct(a + b)
  {
    forall i, j | 0 <= i < j < |a + b|
      ensures (a + b)[i] != (a + b)[j]
    {
      if i < |a| && j >= |a| {
        assert (a + b)[j] in b;
      }
    }
  }

  // ---- The order in which `RenderTiles` visits and requests tiles ----

  /** The tile that row `y` of column `x` adds: one on the map without a slot in `m`. */
  function NewCell(m: map<TileKey, Slot>, zoom: nat, x: int, y: int): seq<TileKey>
  {
    if 0 <= y < GetMaxTile(zoom) && TileKey(zoom, x, y) !in m then [TileKey(zoom, x, y)] else []
  }

  /** The tiles that rows [ylo, yhi) of column `x` add, top to bottom. */
  function ColumnOrder(m: map<TileKey, Slot>, zoom: nat, x: int, ylo: int, yhi: int): seq<TileKey>
    decreases yhi - ylo
  {
    if yhi <= ylo then [] else ColumnOrder(m, zoom, x, ylo, yhi - 1) + NewCell(m, zoom, x, yhi - 1)
  }

  /** The tiles that columns [lo, hi) add, left to right. */
  function WindowOrder(m: map<TileKey, Slot>, zoom: nat, ylo: int, yhi: int, lo: int, hi: int): seq<TileKey>
    decreases hi - lo
  {
    if hi <= lo then [] else WindowOrder(m, zoom, ylo, yhi, lo, hi - 1) + ColumnOrder(m, zoom, hi - 1, ylo, yhi)
  }

  /** The tiles `RenderTiles` requests, in the order it requests them. */
  function Requested(m: map<TileKey, Slot>, zoom: nat, tile: Vec, ax: int, ay: int): seq<TileKey>
  {
    WindowOrder(m, zoom, tile.y - ay, tile.y + ay + 1, tile.x - ax, tile.x + ax + 1)
  }

  lemma {:induction false} RequestedBounds(m: map<TileKey, Slot>, zoom: nat, tile: Vec, ax: int, ay: int, ylo: int, yhi: int, lo: int, hi: int)
    requires ylo == tile.y - ay && yhi == tile.y + ay + 1 && lo == tile.x - ax && hi == tile.x + ax + 1
    ensures Requested(m, zoom, tile, ax, ay) == WindowOrder(m, zoom, ylo, yhi, lo, hi)
  {
  }

  /** `m` with a new slot for each of `keys`, in order. */
  function AddNew(m: map<TileKey, Slot>, keys: seq<TileKey>): map<TileKey, Slot>
    decreases |keys|
  {
    if keys == [] then m else AddNew(m, keys[..|keys| - 1])[keys[|keys| - 1] := NewSlot]
  }

  lemma {:induction false} ColumnOrderMembers(m: map<TileKey, Slot>, zoom: nat, x: int, ylo: int, yhi: int, k: TileKey)
    ensures k in ColumnOrder(m, zoom, x, ylo, yhi) <==>
      k.zoom == zoom && k.x == x && ylo <= k.y < yhi && 0 <= k.y < GetMaxTile(zoom) && k !in m
    decreases yhi - ylo
  {
    if yhi > ylo {
      ColumnOrderMembers(m, zoom, x, ylo, yhi - 1, k);
      assert k.zoom == zoom && k.x == x && k.y == yhi - 1 ==> k == TileKey(zoom, x, yhi - 1);
    }
  }

  lemma {:induction false} ColumnOrderDistinct(m: map<TileKey, Slot>, zoom: nat, x: int, ylo: int, yhi: int)
    ensures Distinct(ColumnOrder(m, zoom, x, ylo, yhi))
    decreases yhi - ylo
  {
    if yhi > ylo {
      ColumnOrderDistinct(m, zoom, x, ylo, yhi - 1);
      var cell := NewCell(m, zoom, x, yhi - 1);
      forall i | 0 <= i < |cell|
        ensures cell[i] !in ColumnOrder(m, zoom, x, ylo, yhi - 1)
      {
        ColumnOrderMembers(m, zoom, x, ylo, yhi - 1, cell[i]);
      }
      DistinctConcat(ColumnOrder(m, zoom, x, ylo, yhi - 1), NewCell(m, zoom, x, yhi - 1));
    }
  }

  lemma {:induction false} WindowOrderMembers(m: map<TileKey, Slot>, zoom: nat, ylo: int, yhi: int, lo: int, hi: int, k: TileKey)
    ensures k in WindowOrder(m, zoom, ylo, yhi, lo, hi) <==>
      k.zoom == zoom && lo <= k.x < hi && ylo <= k.y < yhi && 0 <= k.y < GetMaxTile(zoom) && k !in m
    decreases hi - lo
  {
    if hi > lo {
      WindowOrderMembers(m, zoom, ylo, yhi, lo, hi - 1, k);
      ColumnOrderMembers(m, zoom, hi - 1, ylo, yhi, k);
    }
  }

  lemma {:induction false} WindowOrderDistinct(m: map<TileKey, Slot>, zoom: nat, ylo: int, yhi: int, lo: int, hi: int)
    ensures Distinct(WindowOrder(m, zoom, ylo, yhi, lo, hi))
    decreases hi - lo
  {
    if hi > lo {
      WindowOrderDistinct(m, zoom, ylo, yhi, lo, hi - 1);
      ColumnOrderDistinct(m, zoom, hi - 1, ylo, yhi);
      var column := ColumnOrder(m, zoom, hi - 1, ylo, yhi);
      forall i | 0 <= i < |column|
        ensures column[i] !in WindowOrder(m, zoom, ylo, yhi, lo, hi - 1)
      {
        ColumnOrderMembers(m, zoom, hi - 1, ylo, yhi, column[i]);
        WindowOrderMembers(m, zoom, ylo, yhi, lo, hi - 1, column[i]);
      }
      DistinctConcat(WindowOrder(m, zoom, ylo, yhi, lo, hi - 1), ColumnOrder(m, zoom, hi - 1, ylo, yhi));
    }
  }

  /**
   * `RenderTiles` requests exactly the window's tiles that have no slot yet,
   * each once.
   */
  lemma {:induction false} RequestedExactlyMissing(m: map<TileKey, Slot>, zoom: nat, tile: Vec, ax: int, ay: int)
    ensures forall k :: k in Requested(m, zoom, tile, ax, ay) <==> InWindow(k, zoom, tile, ax, ay) && k !in m
    ensures Distinct(Requested(m, zoom, tile, ax, ay))
  {
    forall k
      ensures k in Requested(m, zoom, tile, ax, ay) <==> InWindow(k, zoom, tile, ax, ay) && k !in m
    {
      WindowOrderMembers(m, zoom, tile.y - ay, tile.y + ay + 1, tile.x - ax, tile.x + ax + 1, k);
    }
    WindowOrderDistinct(m, zoom, tile.y - ay, tile.y + ay + 1, tile.x - ax, tile.x + ax + 1);
  }

  lemma {:induction false} AddNewMembers(m: map<TileKey, Slot>, keys: seq<TileKey>, k: TileKey)
    ensures k in AddNew(m, keys) <==> k in m || k in keys
    ensures k in keys ==> AddNew(m, keys)[k] == NewSlot
    ensures k in m && k !in keys ==> AddNew(m, keys)[k] == m[k]
    decreases |keys|
  {
    if keys != [] {
      var init := keys[..|keys| - 1];
      assert keys == init + [keys[|keys| - 1]];
      AddNewMembers(m, init, k);
    }
  }

  lemma {:induction false} AddNewSnoc(m: map<TileKey, Slot>, keys: seq<TileKey>, k: TileKey)
    ensures AddNew(m, keys + [k]) == AddNew(m, keys)[k := NewSlot]
  {
    assert (keys + [k])[..|keys|] == keys;
  }

  /** Adding `a` and then `b` is adding `a + b`. */
  lemma {:induction false} AddNewConcat(m: map<TileKey, Slot>, a: seq<TileKey>, b: seq<TileKey>)
    ensures AddNew(AddNew(m, a), b) == AddNew(m, a + b)
    decreases |b|
  {
    if b == [] {
      assert a + b == a;
    } else {
      var init, last := b[..|b| - 1], b[|b| - 1];
      assert b == init + [last];
      assert a + b == (a + init) + [last];
      AddNewConcat(m, a, init);
      AddNewSnoc(m, a + init, last);
      AddNewSnoc(AddNew(m, a), init, last);
    }
  }

  /** Giving every requested tile a new slot is `Rendered`: the two definitions agree. */
  lemma {:induction false} RequestedRenders(m: map<TileKey, Slot>, zoom: nat, tile: Vec, ax: int, ay: int)
    ensures AddNew(m, Requested(m, zoom, tile, ax, ay)) == Rendered(m, zoom, tile, ax, ay)
  {
    var r := Requested(m, zoom, tile, ax, ay);
    RequestedExactlyMissing(m, zoom, tile, ax, ay);
    forall k
      ensures k in AddNew(m, r) <==> k in Rendered(m, zoom, tile, ax, ay)
      ensures k in AddNew(m, r) ==> AddNew(m, r)[k] == Rendered(m, zoom, tile, ax, ay)[k]
    {
      AddNewMembers(m, r, k);
    }
  }

  /**
   * Columns [xlo, x) of the window are done: the column dictionaries are
   * `b0` with those columns added to `zoom`'s set, and the slots, their
   * counter and the request log are `m0`, `|m0|` and `r0` extended by the
   * window's order up to column x.
   */
  ghost predicate ColumnsRendered(slots: map<TileKey, Slot>, requests: seq<TileKey>, buckets: map<int, set<int>>, count: int,
                                  m0: map<TileKey, Slot>, r0: seq<TileKey>, b0: map<int, set<int>>,
                                  zoom: nat, ylo: int, yhi: int, xlo: int, x: int)
  {
    && zoom in b0
    && count == |slots|
    && buckets == ColumnsAdded(b0, zoom, xlo, x)
    && slots == AddNew(m0, WindowOrder(m0, zoom, ylo, yhi, xlo, x))
    && requests == WindowLog(r0, m0, zoom, ylo, yhi, xlo, x)
  }

  /**
   * Rows [ylo, y) of column x are done: the slots, their counter and the
   * request log are `s0`, `|s0|` and `q0` extended by the column's order
   * down to row y.
   */
  ghost predicate RowsRendered(slots: map<TileKey, Slot>, requests: seq<TileKey>, count: int,
                               s0: map<TileKey, Slot>, q0: seq<TileKey>, m0: map<TileKey, Slot>,
                               zoom: nat, x: int, ylo: int, y: int)
  {
    && count == |slots|
    && slots == AddNew(s0, ColumnOrder(m0, zoom, x, ylo, y))
    && requests == RowLog(q0, m0, zoom, x, ylo, y)
  }

  /**
   * One row of a column: its tile, if any, extends the column's order, the
   * slots and the request log alike.
   */
  lemma {:induction false} RowStep(m0: map<TileKey, Slot>, s0: map<TileKey, Slot>, zoom: nat, x: int, ylo: int, y: int,
                                   added: seq<TileKey>, cell: seq<TileKey>, s1: map<TileKey, Slot>, next: int)
    requires ylo <= y && next == y + 1
    requires added == ColumnOrder(m0, zoom, x, ylo, y) && cell == NewCell(m0, zoom, x, y)
    requires s1 == AddNew(AddNew(s0, added), cell)
    ensures added + cell == ColumnOrder(m0, zoom, x, ylo, next)
    ensures s1 == AddNew(s0, added + cell)
  {
    AddNewConcat(s0, added, cell);
  }

  /**
   * One column of the window: its tiles extend the window's order and the
   * slots alike.
   */
  lemma {:induction false} ColumnStep(m0: map<TileKey, Slot>, zoom: nat, ylo: int, yhi: int, lo: int, x: int,
                                      added: seq<TileKey>, column: seq<TileKey>, s1: map<TileKey, Slot>, next: int)
    requires lo <= x && next == x + 1
    requires added == WindowOrder(m0, zoom, ylo, yhi, lo, x) && column == ColumnOrder(m0, zoom, x, ylo, yhi)
    requires s1 == AddNew(AddNew(m0, added), column)
    ensures added + column == WindowOrder(m0, zoom, ylo, yhi, lo, next)
    ensures s1 == AddNew(m0, added + column)
  {
    AddNewConcat(m0, added, column);
  }

  /** The request log after rows [ylo, yhi) of column x: `q0` and the column's requests, row by row. */
  function RowLog(q0: seq<TileKey>, m: map<TileKey, Slot>, zoom: nat, x: int, ylo: int, yhi: int): seq<TileKey>
    decreases yhi - ylo
  {
    if yhi <= ylo then q0 else RowLog(q0, m, zoom, x, ylo, yhi - 1) + NewCell(m, zoom, x, yhi - 1)
  }

  lemma {:induction false} RowLogIsAppend(q0: seq<TileKey>, m: map<TileKey, Slot>, zoom: nat, x: int, ylo: int, yhi: int)
    ensures RowLog(q0, m, zoom, x, ylo, yhi) == q0 + ColumnOrder(m, zoom, x, ylo, yhi)
    decreases yhi - ylo
  {
    if yhi > ylo {
      RowLogIsAppend(q0, m, zoom, x, ylo, yhi - 1);
    }
  }

  /** The request log after columns [lo, hi) of the window: `r0` and the columns' requests, column by column. */
  function WindowLog(r0: seq<TileKey>, m: map<TileKey, Slot>, zoom: nat, ylo: int, yhi: int, lo: int, hi: int): seq<TileKey>
    decreases hi - lo
  {
    if hi <= lo then r0 else WindowLog(r0, m, zoom, ylo, yhi, lo, hi - 1) + ColumnOrder(m, zoom, hi - 1, ylo, yhi)
  }

  lemma {:induction false} WindowLogIsAppend(r0: seq<TileKey>, m: map<TileKey, Slot>, zoom: nat, ylo: int, yhi: int, lo: int, hi: int)
    ensures WindowLog(r0, m, zoom, ylo, yhi, lo, hi) == r0 + WindowOrder(m, zoom, ylo, yhi, lo, hi)
    decreases hi - lo
  {
    if hi > lo {
      WindowLogIsAppend(r0, m, zoom, ylo, yhi, lo, hi - 1);
    }
  }

  /**
   * The cell `RenderTiles` is about to visit has a slot exactly when it had
   * one before the window began: the tiles added so far lie in earlier
   * columns or in earlier rows of this one.
   */
  lemma {:induction false} CellUnvisited(m0: map<TileKey, Slot>, s: map<TileKey, Slot>, w: seq<TileKey>, c: seq<TileKey>,
                      zoom: nat, ylo: int, yhi: int, lo: int, x: int, y: int)
    requires w == WindowOrder(m0, zoom, ylo, yhi, lo, x) && c == ColumnOrder(m0, zoom, x, ylo, y)
    requires s == AddNew(AddNew(m0, w), c)
    ensures TileKey(zoom, x, y) in s <==> TileKey(zoom, x, y) in m0
  {
    var key := TileKey(zoom, x, y);
    AddNewMembers(AddNew(m0, w), c, key);
    AddNewMembers(m0, w, key);
    WindowOrderMembers(m0, zoom, ylo, yhi, lo, x, key);
    ColumnOrderMembers(m0, zoom, x, ylo, y, key);
  }


  /** The x dictionary for `k`'s column exists. */
  ghost predicate HasBucket(buckets: map<int, set<int>>, k: TileKey)
  {
    k.zoom in buckets && k.x in buckets[k.zoom]
  }

  ghost predicate AllBucketed(slots: map<TileKey, Slot>, requests: seq<TileKey>, buckets: map<int, set<int>>)
  {
    && (forall k :: k in slots ==> HasBucket(buckets, k))
    && (forall i :: 0 <= i < |requests| ==> HasBucket(buckets, requests[i]))
  }

  /** The columns the outer loop visits are those of the range it counts through. */
  lemma {:induction false} ColumnsBounds(center: int, amount: int, lo: int, hi: int)
    requires lo == center - amount && hi == center + amount + 1
    ensures Columns(center, amount) == ColumnRange(lo, hi)
  {
  }

  /** `zoom`'s set gains column `x`; the set stays as it is when `x` is already there. */
  function AddColumn(b: map<int, set<int>>, zoom: int, x: int): (r: map<int, set<int>>)
    requires zoom in b
  {
    b[zoom := b[zoom] + {x}]
  }

  /** The column sets after columns [lo, hi) were added to `zoom`'s set one at a time. */
  function ColumnsAdded(b: map<int, set<int>>, zoom: int, lo: int, hi: int): (r: map<int, set<int>>)
    requires zoom in b
    ensures zoom in r
    decreases hi - lo
  {
    if hi <= lo then b else AddColumn(ColumnsAdded(b, zoom, lo, hi - 1), zoom, hi - 1)
  }

  lemma {:induction false} ColumnsAddedStep(b: map<int, set<int>>, zoom: int, lo: int, hi: int, next: int)
    requires zoom in b && lo <= hi && next == hi + 1
    ensures ColumnsAdded(b, zoom, lo, next) == AddColumn(ColumnsAdded(b, zoom, lo, hi), zoom, hi)
  {
  }

  /** Adding the columns one at a time adds the whole range at once. */
  lemma {:induction false} ColumnsAddedRange(b: map<int, set<int>>, zoom: int, lo: int, hi: int)
    requires zoom in b
    ensures ColumnsAdded(b, zoom, lo, hi) == b[zoom := b[zoom] + ColumnRange(lo, hi)]
    decreases hi - lo
  {
    if hi <= lo {
      assert b[zoom] + ColumnRange(lo, hi) == b[zoom];
    } else {
      ColumnsAddedRange(b, zoom, lo, hi - 1);
      assert b[zoom] + ColumnRange(lo, hi - 1) + {hi - 1} == b[zoom] + ColumnRange(lo, hi);
    }
  }

  /** The column sets after `RenderTiles`: the zoom's set, created if missing, gains `cols`. */
  function AddColumns(b: map<int, set<int>>, zoom: int, cols: set<int>): map<int, set<int>>
  {
    b[zoom := (if zoom in b then b[zoom] else {}) + cols]
  }

  /** Other zoom levels keep their sets, and no column is lost. */
  lemma {:induction false} NewBuckets(b: map<int, set<int>>, zoom: int, center: int, amount: int)
    ensures AddColumns(b, zoom, Columns(center, amount)).Keys == b.Keys + {zoom}
    ensures forall z :: z in b && z != zoom ==> AddColumns(b, zoom, Columns(center, amount))[z] == b[z]
    ensures forall c :: c in AddColumns(b, zoom, Columns(center, amount))[zoom] <==>
      (zoom in b && c in b[zoom]) || Abs(c - center) <= amount
    ensures forall z :: z in b ==> b[z] <= AddColumns(b, zoom, Columns(center, amount))[z]
  {
  }

  /** Creating the zoom's set, then adding `cols` to it. */
  lemma {:induction false} CreateThenAdd(b0: map<int, set<int>>, b1: map<int, set<int>>, b2: map<int, set<int>>, zoom: int, cols: set<int>)
    requires b1 == if zoom in b0 then b0 else b0[zoom := {}]
    requires b2 == b1[zoom := b1[zoom] + cols]
    ensures b2 == AddColumns(b0, zoom, cols)
  {
    if zoom !in b0 {
      assert {} + cols == cols;
    }
  }

  /**
   * What the loops of `RenderTiles` leave behind: the slots of `Rendered`,
   * the window's columns added to the zoom's dictionary, and every slot
   * and request still attached to a column dictionary.
   */
  lemma {:induction false} WindowRendered(s0: map<TileKey, Slot>, r0: seq<TileKey>, b0: map<int, set<int>>, b1: map<int, set<int>>,
                       s2: map<TileKey, Slot>, r2: seq<TileKey>, b2: map<int, set<int>>,
                       zoom: nat, tile: Vec, ax: int, ay: int)
    requires AllBucketed(s0, r0, b0)
    requires b1 == if zoom in b0 then b0 else b0[zoom := {}]
    requires b2 == ColumnsAdded(b1, zoom, tile.x - ax, tile.x + ax + 1)
    requires s2 == AddNew(s0, Requested(s0, zoom, tile, ax, ay))
    requires r2 == r0 + Requested(s0, zoom, tile, ax, ay)
    ensures s2 == Rendered(s0, zoom, tile, ax, ay)
    ensures b2 == AddColumns(b0, zoom, Columns(tile.x, ax))
    ensures AllBucketed(s2, r2, b2)
  {
    RequestedRenders(s0, zoom, tile, ax, ay);
    ColumnsAddedRange(b1, zoom, tile.x - ax, tile.x + ax + 1);
    ColumnsBounds(tile.x, ax, tile.x - ax, tile.x + ax + 1);
    CreateThenAdd(b0, b1, b2, zoom, Columns(tile.x, ax));
    BucketedAfterWindow(s0, r0, b0, zoom, tile, ax, ay);
  }

  /**
   * Neither the clean-up nor the visibility pass creates a slot, so every
   * slot stays attached to a column dictionary; the visibility pass keeps
   * the number of slots.
   */
  lemma {:induction false} FinishedKeeps(m: map<TileKey, Slot>, requests: seq<TileKey>, buckets: map<int, set<int>>,
                                         zoom: int, tile: Vec, position: Vec, ax: int, ay: int)
    requires AllBucketed(m, requests, buckets)
    ensures Finished(m, zoom, tile, position, ax, ay).Keys <= m.Keys
    ensures |Finished(m, zoom, tile, position, ax, ay)| == |if |m| > RenderedTilesMax then Cleaned(m, zoom, tile, ax, ay) else m|
    ensures AllBucketed(Finished(m, zoom, tile, position, ax, ay), requests, buckets)
  {
    var c := if |m| > RenderedTilesMax then Cleaned(m, zoom, tile, ax, ay) else m;
    ShownKeepsKeys(c, zoom, position);
    CleanedKeepsOnly(m, zoom, tile, ax, ay);
  }

  /** The visibility pass changes no key, so it keeps the number of slots. */
  lemma {:induction false} ShownKeepsKeys(m: map<TileKey, Slot>, zoom: int, position: Vec)
    ensures Shown(m, zoom, position).Keys == m.Keys
    ensures |Shown(m, zoom, position)| == |m|
  {
    assert Shown(m, zoom, position).Keys == m.Keys;
  }

  /** The clean-up only removes slots. */
  lemma {:induction false} CleanedKeepsOnly(m: map<TileKey, Slot>, zoom: int, tile: Vec, ax: int, ay: int)
    ensures Cleaned(m, zoom, tile, ax, ay).Keys <= m.Keys
  {
  }

  /** Rendering keeps every slot and every request attached to a column dictionary. */
  lemma {:induction false} BucketedAfterWindow(s0: map<TileKey, Slot>, r0: seq<TileKey>, b0: map<int, set<int>>,
                            zoom: nat, tile: Vec, ax: int, ay: int)
    requires AllBucketed(s0, r0, b0)
    ensures AllBucketed(Rendered(s0, zoom, tile, ax, ay), r0 + Requested(s0, zoom, tile, ax, ay),
                        AddColumns(b0, zoom, Columns(tile.x, ax)))
  {
    var b2 := AddColumns(b0, zoom, Columns(tile.x, ax));
    var r2 := r0 + Requested(s0, zoom, tile, ax, ay);
    NewBuckets(b0, zoom, tile.x, ax);
    RequestedExactlyMissing(s0, zoom, tile, ax, ay);
    forall i | 0 <= i < |r2|
      ensures HasBucket(b2, r2[i])
    {
      if i >= |r0| {
        assert r2[i] in Requested(s0, zoom, tile, ax, ay);
      }
    }
  }

  class OSMTiles {
    /** Columns of tiles rendered either side of the current tile. */
    var tileAmountX: int
    /** Rows of tiles rendered either side of the current tile. */
    var tileAmountY: int
    var mapZoom: int
    var mapPosition: Vec
    var mapTile: Vec
    var renderCount: int
    var slots: map<TileKey, Slot>
    /** zoom to the x columns whose y dictionary exists. */
    var buckets: map<int, set<int>>
    /** Every `RequestTexture` call made, in order. */
    ghost var requests: seq<TileKey>

    /**
     * The counter is the number of slots, every slot and every requested
     * tile has its column dictionary, and the window is not negative.
     */
    ghost predicate Valid()
      reads this
    {
      Counted() && Bucketed()
    }

    /** The counter is the number of slots; the zoom and window are not negative. */
    ghost predicate Counted()
      reads this
    {
      && 0 <= mapZoom
      && 0 <= tileAmountX && 0 <= tileAmountY
      && renderCount == |slots|
    }

    /** Every slot and every requested tile has its column dictionary. */
    ghost predicate Bucketed()
      reads this
    {
      AllBucketed(slots, requests, buckets)
    }

    constructor ()
      ensures Valid()
      ensures tileAmountX == 3 && tileAmountY == 3 && mapZoom == 0
      ensures mapPosition == Vec(0, 0) && mapTile == Vec(0, 0)
      ensures slots == map[] && buckets == map[] && requests == []
    {
      tileAmountX, tileAmountY := 3, 3;
      mapZoom := 0;
      mapPosition, mapTile := Vec(0, 0), Vec(0, 0);
      renderCount := 0;
      slots, buckets := map[], map[];
      requests := [];
    }

    /**
     * `UpdateSize`: enough tiles either side to cover a viewport of
     * `width` × `height` pixels.
     */
    method UpdateSize(width: nat, height: nat)
      requires Valid()
      modifies this
      ensures Valid()
      ensures tileAmountX * PixelsPerTileAmount >= width && (tileAmountX == 0 || (tileAmountX - 1) * PixelsPerTileAmount < width)
      ensures tileAmountY * PixelsPerTileAmount >= height && (tileAmountY == 0 || (tileAmountY - 1) * PixelsPerTileAmount < height)
      ensures mapZoom == old(mapZoom) && mapPosition == old(mapPosition) && mapTile == old(mapTile)
      ensures slots == old(slots) && buckets == old(buckets) && requests == old(requests)
    {
      tileAmountX := CeilDiv(width, PixelsPerTileAmount);
      tileAmountY := CeilDiv(height, PixelsPerTileAmount);
    }

    /** `Move`: sets the map position and zoom, then renders. */
    method Move(position: Vec, zoom: int)
      requires Valid() && zoom >= 0
      modifies this
      ensures Valid()
      ensures mapPosition == position && mapZoom == zoom && mapTile == GetTile(position)
      ensures tileAmountX == old(tileAmountX) && tileAmountY == old(tileAmountY)
      ensures slots == AfterRender(old(slots), zoom, GetTile(position), position, tileAmountX, tileAmountY)
      ensures buckets == AddColumns(old(buckets), zoom, Columns(GetTile(position).x, tileAmountX))
      ensures requests == old(requests) + Requested(old(slots), zoom, GetTile(position), tileAmountX, tileAmountY)
    {
      mapPosition := position;
      mapZoom := zoom;
      mapTile := GetTile(mapPosition);
      RenderTiles();
    }

    /**
     * `RenderTiles`: gives every missing window tile a new slot, requesting
     * its texture, cleans up when past the ceiling, then shows the current
     * zoom's slots and hides the others.
     */
    method RenderTiles()
      requires Valid()
      modifies this`slots, this`renderCount, this`requests, this`buckets
      ensures Valid()
      ensures slots == AfterRender(old(slots), mapZoom, mapTile, mapPosition, tileAmountX, tileAmountY)
      ensures buckets == AddColumns(old(buckets), mapZoom, Columns(mapTile.x, tileAmountX))
      ensures requests == old(requests) + Requested(old(slots), mapZoom, mapTile, tileAmountX, tileAmountY)
    {
      ghost var s0, r0, b0 := slots, requests, buckets;
      if mapZoom !in buckets {
        buckets := buckets[mapZoom := {}];
      }
      ghost var b1 := buckets;
      RenderWindow(mapZoom, mapTile, tileAmountX, tileAmountY);
      WindowRendered(s0, r0, b0, b1, slots, requests, buckets, mapZoom, mapTile, tileAmountX, tileAmountY);
      FinishRender();
    }

    /**
     * The end of `RenderTiles`: the clean-up when past the ceiling, then
     * the visibility pass.
     */
    method FinishRender()
      requires Counted() && Bucketed()
      modifies this`slots, this`renderCount
      ensures Counted() && Bucketed()
      ensures slots == Finished(old(slots), mapZoom, mapTile, mapPosition, tileAmountX, tileAmountY)
    {
      FinishedKeeps(slots, requests, buckets, mapZoom, mapTile, mapPosition, tileAmountX, tileAmountY);
      if renderCount > RenderedTilesMax {
        CleanTiles();
      }
      UpdateVisibility();
    }

    /**
     * The nested loops of `RenderTiles`: every column of the window gets its
     * x dictionary, and every missing tile of the window on the map a slot,
     * column by column.
     */
    method RenderWindow(ghost zoom: nat, ghost tile: Vec, ghost ax: nat, ghost ay: nat)
      requires renderCount == |slots| && zoom in buckets
      requires zoom == mapZoom && tile == mapTile && ax == tileAmountX && ay == tileAmountY
      modifies this`slots, this`renderCount, this`requests, this`buckets
      ensures renderCount == |slots|
      ensures buckets == ColumnsAdded(old(buckets), zoom, tile.x - ax, tile.x + ax + 1)
      ensures slots == AddNew(old(slots), Requested(old(slots), zoom, tile, ax, ay))
      ensures requests == old(requests) + Requested(old(slots), zoom, tile, ax, ay)
    {
      ghost var s0, r0, b0 := slots, requests, buckets;
      ghost var xlo, xhi, ylo, yhi := tile.x - ax, tile.x + ax + 1, tile.y - ay, tile.y + ay + 1;
      ghost var cx := xlo;
      var x := -tileAmountX;
      while x <= tileAmountX
        invariant 0 <= x + ax <= 2 * ax + 1 && cx == tile.x + x && xlo <= cx <= xhi
        invariant ColumnsRendered(slots, requests, buckets, renderCount, s0, r0, b0, zoom, ylo, yhi, xlo, cx)
      {
        var targetX := mapTile.x + x;
        RenderColumn(targetX, s0, r0, b0, zoom, xlo, ylo, yhi);
        x := x + 1;
        cx := targetX + 1;
      }
      assert cx == xhi;
      WindowLogIsAppend(r0, s0, zoom, ylo, yhi, xlo, xhi);
      RequestedBounds(s0, zoom, tile, ax, ay, ylo, yhi, xlo, xhi);
    }

    /**
     * One column of `RenderTiles`' loop: the column's x dictionary is
     * created if missing, and every row of the window that lies on the map
     * and has no slot yet gets one, top to bottom. `m0`, `r0` and `b0` are
     * the slots, requests and dictionaries before the window; the columns
     * of the window left of `targetX` are done.
     */
    method RenderColumn(targetX: int, ghost m0: map<TileKey, Slot>, ghost r0: seq<TileKey>, ghost b0: map<int, set<int>>,
                        ghost zoom: nat, ghost xlo: int, ghost ylo: int, ghost yhi: int)
      requires zoom == mapZoom && 0 <= tileAmountY
      requires xlo == mapTile.x - tileAmountX && ylo == mapTile.y - tileAmountY && yhi == mapTile.y + tileAmountY + 1
      requires xlo <= targetX
      requires ColumnsRendered(slots, requests, buckets, renderCount, m0, r0, b0, zoom, ylo, yhi, xlo, targetX)
      modifies this`slots, this`renderCount, this`requests, this`buckets
      ensures ColumnsRendered(slots, requests, buckets, renderCount, m0, r0, b0, zoom, ylo, yhi, xlo, targetX + 1)
    {
      ghost var before := WindowOrder(m0, zoom, ylo, yhi, xlo, targetX);
      // Adding a column that already exists leaves the set as it is.
      buckets := buckets[mapZoom := buckets[mapZoom] + {targetX}];
      ColumnsAddedStep(b0, zoom, xlo, targetX, targetX + 1);
      RenderRows(targetX, m0, before, zoom, xlo, ylo, yhi);
      ColumnStep(m0, zoom, ylo, yhi, xlo, targetX, before, ColumnOrder(m0, zoom, targetX, ylo, yhi), slots, targetX + 1);
    }

    /**
     * The inner loop of `RenderTiles` over one column, top to bottom.
     * `before` holds the tiles the columns left of `targetX` added to `m0`.
     */
    method RenderRows(targetX: int, ghost m0: map<TileKey, Slot>, ghost before: seq<TileKey>,
                      ghost zoom: nat, ghost xlo: int, ghost ylo: int, ghost yhi: int)
      requires renderCount == |slots| && zoom == mapZoom && zoom in buckets && targetX in buckets[zoom]
      requires 0 <= tileAmountY && ylo == mapTile.y - tileAmountY && yhi == mapTile.y + tileAmountY + 1
      requires xlo <= targetX && before == WindowOrder(m0, zoom, ylo, yhi, xlo, targetX)
      requires slots == AddNew(m0, before)
      modifies this`slots, this`renderCount, this`requests
      ensures renderCount == |slots|
      ensures slots == AddNew(old(slots), ColumnOrder(m0, zoom, targetX, ylo, yhi))
      ensures requests == old(requests) + ColumnOrder(m0, zoom, targetX, ylo, yhi)
    {
      ghost var s0, q0 := slots, requests;
      ghost var cy := ylo;
      var y := -tileAmountY;
      while y <= tileAmountY
        invariant -tileAmountY <= y <= tileAmountY + 1 && cy == mapTile.y + y
        invariant RowsRendered(slots, requests, renderCount, s0, q0, m0, zoom, targetX, ylo, cy)
      {
        var targetY := mapTile.y + y;
        RenderCell(targetX, targetY, m0, s0, q0, before, zoom, xlo, ylo, yhi);
        y := y + 1;
        cy := targetY + 1;
      }
      RowLogIsAppend(q0, m0, zoom, targetX, ylo, cy);
    }

    /**
     * One row of `RenderTiles`' inner loop: a row off the map is skipped,
     * and a tile on the map without a slot gets one. Together with the rows
     * above it in the column, that is the column's order down to this row.
     */
    method RenderCell(targetX: int, targetY: int, ghost m0: map<TileKey, Slot>, ghost s0: map<TileKey, Slot>,
                      ghost q0: seq<TileKey>, ghost before: seq<TileKey>,
                      ghost zoom: nat, ghost xlo: int, ghost ylo: int, ghost yhi: int)
      requires zoom == mapZoom && zoom in buckets && targetX in buckets[zoom]
      requires xlo <= targetX && ylo <= targetY && before == WindowOrder(m0, zoom, ylo, yhi, xlo, targetX)
      requires s0 == AddNew(m0, before)
      requires RowsRendered(slots, requests, renderCount, s0, q0, m0, zoom, targetX, ylo, targetY)
      modifies this`slots, this`renderCount, this`requests
      ensures RowsRendered(slots, requests, renderCount, s0, q0, m0, zoom, targetX, ylo, targetY + 1)
    {
      ghost var above := ColumnOrder(m0, zoom, targetX, ylo, targetY);
      CellUnvisited(m0, slots, before, above, zoom, ylo, yhi, xlo, targetX, targetY);
      ghost var added: seq<TileKey> := [];
      var z: nat := mapZoom;
      if 0 <= targetY < GetMaxTile(z) && TileKey(z, targetX, targetY) !in slots {
        RenderTile(targetX, targetY, z);
        added := [TileKey(zoom, targetX, targetY)];
        assert added[..0] == [];
      }
      assert added == NewCell(m0, zoom, targetX, targetY);
      RowStep(m0, s0, zoom, targetX, ylo, targetY, above, added, slots, targetY + 1);
    }

    /**
     * `RenderTile`: a new slot with the loading texture for a tile that has
     * none, counted, and its texture requested.
     */
    method RenderTile(x: int, y: int, zoom: int)
      requires renderCount == |slots|
      requires zoom in buckets && x in buckets[zoom]
      requires TileKey(zoom, x, y) !in slots
      modifies this`slots, this`renderCount, this`requests
      ensures slots == old(slots)[TileKey(zoom, x, y) := NewSlot]
      ensures renderCount == old(renderCount) + 1 == |slots|
      ensures requests == old(requests) + [TileKey(zoom, x, y)]
    {
      slots := slots[TileKey(zoom, x, y) := NewSlot];
      renderCount := renderCount + 1;
      requests := requests + [TileKey(zoom, x, y)];
    }

    /**
     * `CleanTiles`: removes exactly the slots of another zoom level or
     * farther than twice the window, decrementing the counter for each.
     */
    method CleanTiles()
      requires renderCount == |slots|
      modifies this`slots, this`renderCount
      ensures renderCount == |slots|
      ensures slots == Cleaned(old(slots), mapZoom, mapTile, tileAmountX, tileAmountY)
    {
      var todo := slots.Keys;
      while todo != {}
        invariant todo <= old(slots).Keys
        invariant renderCount == |slots|
        invariant forall k :: k in slots <==>
          k in old(slots) && (k in todo || !Evicted(k, mapZoom, mapTile, tileAmountX, tileAmountY))
        invariant forall k :: k in slots ==> slots[k] == old(slots)[k]
        decreases todo
      {
        var k :| k in todo;
        if Evicted(k, mapZoom, mapTile, tileAmountX, tileAmountY) {
          RemoveOneSlot(slots, k);
          renderCount := renderCount - 1;
          slots := slots - {k};
        }
        todo := todo - {k};
      }
    }

    /**
     * The last loop of `RenderTiles`: every slot of the current zoom is
     * placed at its tile's offset from the map position and shown; every
     * other slot is hidden where it was.
     */
    method UpdateVisibility()
      modifies this`slots
      ensures slots == Shown(old(slots), mapZoom, mapPosition)
    {
      var todo := slots.Keys;
      while todo != {}
        invariant todo <= slots.Keys && slots.Keys == old(slots).Keys
        invariant forall k :: k in slots ==>
          slots[k] == if k in todo then old(slots)[k] else ShowSlot(old(slots)[k], k, mapZoom, mapPosition)
        decreases todo
      {
        var k :| k in todo;
        var tile := slots[k];
        if k.zoom == mapZoom {
          slots := slots[k := tile.(visible := true, offset := Sub(GetTilePosition(Vec(k.x, k.y)), mapPosition))];
        } else {
          slots := slots[k := tile.(visible := false)];
        }
        todo := todo - {k};
      }
    }

    /**
     * `OnTextureReady`: binds the texture to the tile's slot if the slot
     * still exists; an evicted tile's texture is dropped. The source looks
     * up the tile's column dictionary unchecked, so that must exist (it does
     * for every requested tile, see `Valid`).
     */
    method OnTextureReady(texture: Texture, x: int, y: int, zoom: int)
      requires Valid()
      requires zoom in buckets && x in buckets[zoom]
      modifies this`slots
      ensures Valid()
      ensures TileKey(zoom, x, y) in old(slots) ==>
        slots == old(slots)[TileKey(zoom, x, y) := old(slots)[TileKey(zoom, x, y)].(texture := texture)]
      ensures TileKey(zoom, x, y) !in old(slots) ==> slots == old(slots)
    {
      var key := TileKey(zoom, x, y);
      if key in slots {
        slots := slots[key := slots[key].(texture := texture)];
      }
    }
  }
}

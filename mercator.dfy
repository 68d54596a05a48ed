/**
 * Integer addressing of the Mercator map: the size of the map at a zoom
 * level, the alignment of a position onto the map (x wraps around, y is
 * clamped) and the zoom/position state of `MercatorMap`.
 */
module Mercator {
  import opened Util

  const TileSize: int := 256
  const DefaultZoomLevel: int := 17
  const MaxZoomLevel: int := 19

  /** `TileSize << zoom`: the exclusive maximum position along either axis. */
  function GetMaxPosition(zoom: nat): (n: nat)
    ensures n >= TileSize && n % TileSize == 0
  {
    EuclidUnique(TileSize * Pow2(zoom), TileSize, Pow2(zoom), 0);
    TileSize * Pow2(zoom)
  }

  /** One more zoom level doubles the size of the map. */
  lemma {:induction false} MaxPositionDoubles(zoom: nat)
    ensures GetMaxPosition(zoom + 1) == 2 * GetMaxPosition(zoom)
  {
  }

  lemma {:induction false} Pow2Monotone(a: nat, b: nat)
    requires a <= b
    ensures Pow2(a) <= Pow2(b)
  {
    if a < b {
      Pow2Monotone(a, b - 1);
    }
  }

  /**
   * Up to the maximum zoom level the map is at most 2^27 pixels wide, so
   * every in-bounds position and its double fit a 32-bit integer.
   */
  lemma {:induction false} MaxPositionFitsInt32(zoom: nat)
    requires zoom <= MaxZoomLevel
    ensures 256 <= GetMaxPosition(zoom) <= 134217728
  {
    Pow2Monotone(zoom, 19);
    Pow2Add(2, 2);
    Pow2Add(4, 4);
    Pow2Add(8, 8);
    Pow2Add(16, 3);
  }

  lemma {:induction false} Pow2Add(a: nat, b: nat)
    ensures Pow2(a + b) == Pow2(a) * Pow2(b)
  {
    if b > 0 {
      Pow2Add(a, b - 1);
      assert Pow2(a + b) == 2 * Pow2(a + b - 1);
      assert Pow2(a) * Pow2(b) == Pow2(a) * (2 * Pow2(b - 1));
    }
  }

  /** A position lies on the map: x in [0, max), y in [0, max - 1]. */
  ghost predicate InBounds(p: Vec, zoom: nat)
  {
    0 <= p.x < GetMaxPosition(zoom) && 0 <= p.y <= GetMaxPosition(zoom) - 1
  }

  /** `Math.Clamp`. */
  function Clamp(v: int, lo: int, hi: int): int
    requires lo <= hi
  {
    if v < lo then lo else if v > hi then hi else v
  }

  /**
   * `Align`: x loops around the map with the positive modulo, y is
   * clamped to the first and last rows.
   */
  function Align(p: Vec, zoom: nat): (r: Vec)
    ensures InBounds(r, zoom)
    ensures r.x == p.x % GetMaxPosition(zoom)
    ensures p.y < 0 ==> r.y == 0
    ensures p.y >= GetMaxPosition(zoom) ==> r.y == GetMaxPosition(zoom) - 1
    ensures 0 <= p.y < GetMaxPosition(zoom) ==> r.y == p.y
    ensures InBounds(p, zoom) ==> r == p
  {
    var max := GetMaxPosition(zoom);
    if 0 <= p.x < max then
      EuclidUnique(p.x, max, 0, p.x);
      Vec(Mod(p.x, max), Clamp(p.y, 0, max - 1))
    else
      Vec(Mod(p.x, max), Clamp(p.y, 0, max - 1))
  }

  /** Aligning an aligned position changes nothing. */
  lemma {:induction false} AlignIdempotent(p: Vec, zoom: nat)
    ensures Align(Align(p, zoom), zoom) == Align(p, zoom)
  {
  }

  /** Examples of the wrap-around of x and the clamping of y, five pixels or ten rows past either edge. */
  lemma {:induction false} AlignExamples(x: int, y: int, zoom: nat)
    ensures Align(Vec(GetMaxPosition(zoom) + 5, y), zoom).x == 5
    ensures Align(Vec(-5, y), zoom).x == GetMaxPosition(zoom) - 5
    ensures Align(Vec(x, -10), zoom).y == 0
    ensures Align(Vec(x, GetMaxPosition(zoom) + 10), zoom).y == GetMaxPosition(zoom) - 1
  {
    var max := GetMaxPosition(zoom);
    EuclidUnique(max + 5, max, 1, 5);
    EuclidUnique(-5, max, -1, max - 5);
  }

  /**
   * `_currentPosition *= 2`, which halving undoes; that the result is twice
   * the position at every level is `ZoomedInScales`.
   */
  function Double(p: Vec): (r: Vec)
    ensures Halve(r) == p
  {
    Vec(p.x * 2, p.y * 2)
  }

  /**
   * `_currentPosition /= 2`, a C# truncating division on each axis: twice
   * the result is the coordinate or, for an odd one, the even neighbour
   * nearer zero.
   */
  function Halve(p: Vec): (r: Vec)
    ensures p.x >= 0 ==> 2 * r.x <= p.x <= 2 * r.x + 1
    ensures p.x < 0 ==> 2 * r.x - 1 <= p.x <= 2 * r.x
    ensures p.y >= 0 ==> 2 * r.y <= p.y <= 2 * r.y + 1
    ensures p.y < 0 ==> 2 * r.y - 1 <= p.y <= 2 * r.y
  {
    Vec(TruncDiv(p.x, 2), TruncDiv(p.y, 2))
  }

  /** The position after `k` single-level zoom-ins. */
  function ZoomedIn(p: Vec, k: nat): Vec
  {
    if k == 0 then p else Double(ZoomedIn(p, k - 1))
  }

  /** The position after `k` single-level zoom-outs. */
  function ZoomedOut(p: Vec, k: nat): Vec
  {
    if k == 0 then p else Halve(ZoomedOut(p, k - 1))
  }

  /** Zooming in `k` levels multiplies the position by 2^k. */
  lemma {:induction false} ZoomedInScales(p: Vec, k: nat)
    ensures ZoomedIn(p, k) == Vec(p.x * Pow2(k), p.y * Pow2(k))
  {
    if k > 0 {
      ZoomedInScales(p, k - 1);
      assert p.x * Pow2(k - 1) * 2 == p.x * Pow2(k);
      assert p.y * Pow2(k - 1) * 2 == p.y * Pow2(k);
    }
  }

  /**
   * Zooming out `k` levels from a position on the map divides it by 2^k:
   * the repeated rounding of the halvings is that of one division.
   */
  lemma {:induction false} ZoomedOutDivides(p: Vec, k: nat)
    requires p.x >= 0 && p.y >= 0
    ensures ZoomedOut(p, k) == Vec(p.x / Pow2(k), p.y / Pow2(k))
  {
    if k > 0 {
      ZoomedOutDivides(p, k - 1);
      HalvingDivides(p.x, k);
      HalvingDivides(p.y, k);
    }
  }

  lemma {:induction false} HalvingDivides(a: nat, k: nat)
    requires k > 0
    ensures TruncDiv(a / Pow2(k - 1), 2) == a / Pow2(k)
  {
    QuotientHalved(a, Pow2(k - 1), Pow2(k));
  }

  lemma {:induction false} QuotientHalved(a: nat, b: nat, c: nat)
    requires b > 0 && c == 2 * b
    ensures TruncDiv(a / b, 2) == a / c
  {
    HalfOfQuotient(a, b);
  }

  lemma {:induction false} ZoomedOutHalvesFirst(p: Vec, k: nat)
    ensures ZoomedOut(p, k + 1) == ZoomedOut(Halve(p), k)
  {
    if k > 0 {
      ZoomedOutHalvesFirst(p, k - 1);
    }
  }

  /** Zooming out as many levels as were zoomed in restores the position. */
  lemma {:induction false} ZoomOutUndoesZoomIn(p: Vec, k: nat)
    ensures ZoomedOut(ZoomedIn(p, k), k) == p
  {
    if k > 0 {
      var q := ZoomedIn(p, k - 1);
      ZoomedOutHalvesFirst(Double(q), k - 1);
      assert Halve(Double(q)) == q;
      ZoomOutUndoesZoomIn(p, k - 1);
    }
  }

  lemma {:induction false} DoubleInBounds(p: Vec, zoom: nat)
    requires InBounds(p, zoom)
    ensures InBounds(Double(p), zoom + 1)
  {
  }

  lemma {:induction false} HalveInBounds(p: Vec, zoom: nat)
    requires zoom >= 1 && InBounds(p, zoom)
    ensures InBounds(Halve(p), zoom - 1)
  {
    MaxPositionDoubles(zoom - 1);
  }

  /** `MercatorMap`: the current zoom level and position on the map. */
  class MercatorMap {
    var zoom: int
    var currentPosition: Vec

    /** The zoom stays in [0, MaxZoomLevel] and the position on the map. */
    ghost predicate Valid()
      reads this
    {
      0 <= zoom <= MaxZoomLevel && InBounds(currentPosition, zoom)
    }

    /** Starts at the default zoom level, in the middle of the map. */
    constructor ()
      ensures Valid()
      ensures zoom == DefaultZoomLevel
      ensures currentPosition == Vec(GetMaxPosition(DefaultZoomLevel) / 2, GetMaxPosition(DefaultZoomLevel) / 2)
    {
      zoom := DefaultZoomLevel;
      currentPosition := Vec(GetMaxPosition(DefaultZoomLevel) / 2, GetMaxPosition(DefaultZoomLevel) / 2);
    }

    /**
     * Zooms in `levels` levels, one at a time, doubling the position each
     * time, and stops at the maximum zoom level.
     */
    method ZoomIn(levels: int)
      requires Valid()
      modifies this
      ensures Valid()
      ensures levels < 1 ==> zoom == old(zoom)
      ensures levels >= 1 ==> zoom == Min(old(zoom) + levels, MaxZoomLevel)
      ensures currentPosition == ZoomedIn(old(currentPosition), zoom - old(zoom))
    {
      var remaining := levels;
      while zoom != MaxZoomLevel && remaining >= 1
        invariant Valid()
        invariant old(zoom) <= zoom
        invariant remaining == levels - (zoom - old(zoom))
        invariant levels >= 1 ==> remaining >= 0
        invariant levels < 1 ==> zoom == old(zoom)
        invariant currentPosition == ZoomedIn(old(currentPosition), zoom - old(zoom))
        decreases MaxZoomLevel - zoom
      {
        DoubleInBounds(currentPosition, zoom);
        currentPosition := Double(currentPosition);
        zoom := zoom + 1;
        remaining := remaining - 1;
      }
    }

    /**
     * Zooms out `levels` levels, one at a time, halving the position each
     * time, and stops at zoom level 0.
     */
    method ZoomOut(levels: int)
      requires Valid()
      modifies this
      ensures Valid()
      ensures levels < 1 ==> zoom == old(zoom)
      ensures levels >= 1 ==> zoom == if old(zoom) - levels < 0 then 0 else old(zoom) - levels
      ensures currentPosition == ZoomedOut(old(currentPosition), old(zoom) - zoom)
    {
      var remaining := levels;
      while zoom != 0 && remaining >= 1
        invariant Valid()
        invariant zoom <= old(zoom)
        invariant remaining == levels - (old(zoom) - zoom)
        invariant levels >= 1 ==> remaining >= 0
        invariant levels < 1 ==> zoom == old(zoom)
        invariant currentPosition == ZoomedOut(old(currentPosition), old(zoom) - zoom)
        decreases zoom
      {
        HalveInBounds(currentPosition, zoom);
        currentPosition := Halve(currentPosition);
        zoom := zoom - 1;
        remaining := remaining - 1;
      }
    }

    /**
     * Moves to `move` (absolute) or by `move` (relative), aligned onto the
     * map; the zoom level does not change.
     */
    method Move(move: Vec, absolute: bool)
      requires Valid()
      modifies this
      ensures Valid()
      ensures zoom == old(zoom)
      ensures currentPosition == Align(if absolute then move else Add(move, old(currentPosition)), zoom)
    {
      if absolute {
        currentPosition := Align(move, zoom);
      } else {
        currentPosition := Align(Add(move, currentPosition), zoom);
      }
    }
  }

  /**
   * When no zoom level is clamped, zooming in `k` levels and then out `k`
   * levels returns to the exact original position and zoom.
   */
  method ZoomRoundTrip(m: MercatorMap, k: int)
    requires m.Valid() && k >= 1 && m.zoom + k <= MaxZoomLevel
    modifies m
    ensures m.Valid()
    ensures m.zoom == old(m.zoom) && m.currentPosition == old(m.currentPosition)
  {
    m.ZoomIn(k);
    m.ZoomOut(k);
    ZoomOutUndoesZoomIn(old(m.currentPosition), k);
  }
}

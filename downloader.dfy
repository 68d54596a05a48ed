/**
 * `TileDownloader`: resolves a tile request from the disk cache or the
 * network. The cache directory is a map from tile ID to the file's
 * modification time; the HTTP request, the PNG decode of its body and the
 * decode of a cached file are outcomes given to the step that observes
 * them. Deferred calls, worker-pool tasks and requests in flight are
 * recorded as scheduled tasks; emitted `TextureReady` signals and calls
 * to `HttpRequest.Request` are recorded in logs.
 */
module Downloader {
  import opened Util
  import opened Mercator

  /** `Globals.TileCacheTime`: a cached tile older than 7 days is refreshed. */
  const TileCacheTime: int := 86400 * 7

  /** A tile's texture: the loading and failed placeholders, or a decoded image. */
  datatype Texture = Loading | Failed | Loaded(image: int)

  datatype TileKey = TileKey(zoom: int, x: int, y: int)

  datatype Option<T> = None | Some(value: T)

  /** The `TextureReady` signal, carrying the displayed x. */
  datatype Event = TextureReady(texture: Texture, x: int, y: int, zoom: int)

  /** Work handed to the engine, to be run later. */
  datatype Task =
    | DeferredRequest(xFake: int, y: int, zoom: int)           // RequestTexture via CallDeferred
    | DiskRead(xFake: int, x: int, y: int, zoom: int)          // LoadTextureFromDisk on the worker pool
    | PendingDownload(xFake: int, x: int, y: int, zoom: int)   // HttpRequest awaiting RequestCompleted

  // ---- Tile IDs: `$"z{zoom}x{x}y{y}"` ----

  predicate IsDigit(c: char) { '0' <= c <= '9' }

  function DigitChar(d: int): (c: char)
    requires 0 <= d < 10
    ensures IsDigit(c)
  {
    (48 + d) as char
  }

  /** Decimal digits of a natural number, most significant first. */
  function NatToString(n: nat): (s: string)
    ensures |s| >= 1
    ensures forall i :: 0 <= i < |s| ==> IsDigit(s[i])
  {
    if n < 10 then [DigitChar(n)] else NatToString(n / 10) + [DigitChar(n % 10)]
  }

  /** C#'s formatting of an `int`: a minus sign before the digits when negative. */
  function IntToString(i: int): (s: string)
    ensures |s| >= 1
    ensures forall k :: 0 <= k < |s| ==> IsDigit(s[k]) || s[k] == '-'
  {
    if i < 0 then "-" + NatToString(-i) else NatToString(i)
  }

  /** Reads decimal digits back (the inverse of `NatToString`). */
  function DigitsValue(s: string): int
  {
    if s == [] then 0 else DigitsValue(s[..|s| - 1]) * 10 + (s[|s| - 1] as int - 48)
  }

  function ParseInt(s: string): int
  {
    if |s| > 0 && s[0] == '-' then -DigitsValue(s[1..]) else DigitsValue(s)
  }

  lemma {:induction false} NatToStringRoundTrip(n: nat)
    ensures DigitsValue(NatToString(n)) == n
  {
    if n >= 10 {
      var s := NatToString(n);
      assert s[..|s| - 1] == NatToString(n / 10);
      NatToStringRoundTrip(n / 10);
    }
  }

  lemma {:induction false} IntToStringRoundTrip(i: int)
    ensures ParseInt(IntToString(i)) == i
  {
    var s := IntToString(i);
    if i < 0 {
      assert s[0] == '-' && s[1..] == NatToString(-i);
      NatToStringRoundTrip(-i);
    } else {
      assert s[0] != '-' by { assert IsDigit(s[0]); }
      NatToStringRoundTrip(i);
    }
  }

  /**
   * `GetTileID`: the cache file name and key of a tile. The zoom, x and y
   * can be read back from it, so distinct tiles have distinct IDs.
   */
  function GetTileID(x: int, y: int, zoom: int): (id: string)
    ensures ParseTileID(id) == Some(TileKey(zoom, x, y))
  {
    var id := "z" + IntToString(zoom) + "x" + IntToString(x) + "y" + IntToString(y);
    TileIDParses(id, x, y, zoom);
    id
  }

  /** Reads a tile ID back: `z`, the zoom up to the first `x`, the x up to the next `y`, then the y. */
  function ParseTileID(id: string): Option<TileKey>
  {
    if |id| == 0 || id[0] != 'z' then None
    else
      var rest := id[1..];
      var i := IndexOf(rest, 'x');
      if i >= |rest| then None
      else
        var tail := rest[i + 1..];
        var j := IndexOf(tail, 'y');
        if j >= |tail| then None
        else Some(TileKey(ParseInt(rest[..i]), ParseInt(tail[..j]), ParseInt(tail[j + 1..])))
  }

  /** Index of the first `c` in `s` (|s| when there is none). */
  function IndexOf(s: string, c: char): nat
  {
    if s == [] then 0 else if s[0] == c then 0 else 1 + IndexOf(s[1..], c)
  }

  lemma {:induction false} IndexOfMarker(a: string, b: string, c: char)
    requires c !in a
    ensures IndexOf(a + [c] + b, c) == |a|
  {
    if a != [] {
      assert (a + [c] + b)[1..] == a[1..] + [c] + b;
      IndexOfMarker(a[1..], b, c);
    }
  }

  /** A formatted integer holds only digits and the minus sign. */
  lemma {:induction false} NoMarker(i: int, c: char)
    requires !IsDigit(c) && c != '-'
    ensures c !in IntToString(i)
  {
  }

  /** The first marker splits `a + [c] + b` back into `a` and `b` when `a` holds no marker. */
  lemma {:induction false} SplitAtMarker(a: string, b: string, c: char)
    requires c !in a
    ensures var s := a + [c] + b; var i := IndexOf(s, c);
      i == |a| < |s| && s[..i] == a && s[i + 1..] == b
  {
    IndexOfMarker(a, b, c);
    var s := a + [c] + b;
    assert s[..|a|] == a;
    assert s[|a| + 1..] == b;
  }

  /** The ID built by `GetTileID` parses back to its tile. */
  lemma {:induction false} TileIDParses(id: string, x: int, y: int, zoom: int)
    requires id == "z" + IntToString(zoom) + "x" + IntToString(x) + "y" + IntToString(y)
    ensures ParseTileID(id) == Some(TileKey(zoom, x, y))
  {
    var zs, xs, ys := IntToString(zoom), IntToString(x), IntToString(y);
    var tail := xs + ['y'] + ys;
    assert id[1..] == zs + ['x'] + tail;
    NoMarker(zoom, 'x');
    SplitAtMarker(zs, tail, 'x');
    NoMarker(x, 'y');
    SplitAtMarker(xs, ys, 'y');
    IntToStringRoundTrip(zoom);
    IntToStringRoundTrip(x);
    IntToStringRoundTrip(y);
  }

  /** Distinct tiles have distinct IDs, hence distinct cache files. */
  lemma {:induction false} GetTileIDInjective(x1: int, y1: int, z1: int, x2: int, y2: int, z2: int)
    requires GetTileID(x1, y1, z1) == GetTileID(x2, y2, z2)
    ensures x1 == x2 && y1 == y2 && z1 == z2
  {
    assert Some(TileKey(z1, x1, y1)) == ParseTileID(GetTileID(x1, y1, z1)) == Some(TileKey(z2, x2, y2));
  }

  // ---- Real x and cache freshness ----

  /**
   * The real x of a displayed column: `Mod(xFake, GetMaxPosition(zoom) /
   * TileSize)`, a column of the map, congruent to the displayed one.
   */
  function RealX(xFake: int, zoom: nat): (x: int)
    ensures 0 <= x < Pow2(zoom)
    ensures x == xFake % Pow2(zoom)
  {
    var tiles := GetMaxPosition(zoom) / TileSize;
    EuclidUnique(GetMaxPosition(zoom), TileSize, Pow2(zoom), 0);
    Mod(xFake, tiles)
  }

  datatype CacheState = Absent | Stale | Fresh

  /** The branch `RequestTexture` takes for a tile ID at time `now`. */
  function Classify(cache: map<string, int>, id: string, now: int): (c: CacheState)
    ensures c == Absent <==> id !in cache
    ensures c == Stale <==> id in cache && cache[id] < now - TileCacheTime
    ensures c == Fresh <==> id in cache && now - TileCacheTime <= cache[id]
  {
    if id !in cache then Absent
    else if now - cache[id] > TileCacheTime then Stale
    else Fresh
  }

  /**
   * The freshness boundary: one second past the cache time is stale, the
   * cache time itself and anything younger is fresh.
   */
  lemma {:induction false} FreshnessBoundary(cache: map<string, int>, id: string, now: int)
    requires id in cache
    ensures cache[id] == now - TileCacheTime - 1 ==> Classify(cache, id, now) == Stale
    ensures cache[id] == now - TileCacheTime ==> Classify(cache, id, now) == Fresh
    ensures cache[id] == now - TileCacheTime + 1 ==> Classify(cache, id, now) == Fresh
  {
  }

  /** A task that names a real x names the wrapped displayed x. */
  ghost predicate TaskWellFormed(t: Task)
  {
    t.zoom >= 0 && (!t.DeferredRequest? ==> t.x == RealX(t.xFake, t.zoom))
  }

  class TileDownloader {
    /** The cache directory: tile ID to modification time (Unix seconds). */
    var cache: map<string, int>
    /** `TextureReady` signals emitted, in order. */
    var emitted: seq<Event>
    /** Calls to `HttpRequest.Request`, started or not, as (zoom, real x, y) of the URL. */
    var fetches: seq<TileKey>
    /** Deferred calls, worker tasks and requests in flight, in order of scheduling. */
    var scheduled: seq<Task>

    /** Every request URL names a column of the map; every task its real x. */
    ghost predicate Valid()
      reads this
    {
      && (forall i :: 0 <= i < |fetches| ==> fetches[i].zoom >= 0 && 0 <= fetches[i].x < Pow2(fetches[i].zoom))
      && (forall i :: 0 <= i < |scheduled| ==> TaskWellFormed(scheduled[i]))
    }

    /** Starts over the cache directory as found on disk. */
    constructor (disk: map<string, int>)
      ensures Valid()
      ensures cache == disk && emitted == [] && fetches == [] && scheduled == []
    {
      cache := disk;
      emitted := [];
      fetches := [];
      scheduled := [];
    }

    /**
     * `RequestTexture`: takes exactly one of three branches for the real
     * tile: absent from the cache, download it; present and older than
     * the cache time, refresh it; otherwise read it from disk.
     * `started` is whether the HTTP request would start.
     */
    method RequestTexture(xFake: int, y: int, zoom: int, now: int, started: bool)
      requires Valid() && zoom >= 0
      modifies this
      ensures Valid()
      ensures var x := RealX(xFake, zoom);
        var id := GetTileID(x, y, zoom);
        match Classify(old(cache), id, now)
        case Absent =>
          && cache == old(cache)
          && fetches == old(fetches) + [TileKey(zoom, x, y)]
          && (started ==> scheduled == old(scheduled) + [PendingDownload(xFake, x, y, zoom)] && emitted == old(emitted))
          && (!started ==> scheduled == old(scheduled) && emitted == old(emitted) + [TextureReady(Failed, xFake, y, zoom)])
        case Stale =>
          && cache == old(cache) - {id}
          && scheduled == old(scheduled) + [DeferredRequest(xFake, y, zoom)]
          && fetches == old(fetches) && emitted == old(emitted)
        case Fresh =>
          && cache == old(cache)
          && scheduled == old(scheduled) + [DiskRead(xFake, x, y, zoom)]
          && fetches == old(fetches) && emitted == old(emitted)
    {
      var x := RealX(xFake, zoom);
      var tileID := GetTileID(x, y, zoom);
      if tileID !in cache {
        DownloadTexture(xFake, x, y, zoom, started);
      } else {
        var timeDifference := now - cache[tileID];
        if timeDifference > TileCacheTime {
          UpdateTile(xFake, x, y, zoom);
        } else {
          scheduled := scheduled + [DiskRead(xFake, x, y, zoom)];
        }
      }
    }

    /** `UpdateTile`: deletes the cached file, then requests the tile again later. */
    method UpdateTile(xFake: int, x: int, y: int, zoom: int)
      requires Valid() && zoom >= 0 && x == RealX(xFake, zoom)
      modifies this
      ensures Valid()
      ensures cache == old(cache) - {GetTileID(x, y, zoom)}
      ensures scheduled == old(scheduled) + [DeferredRequest(xFake, y, zoom)]
      ensures fetches == old(fetches) && emitted == old(emitted)
    {
      cache := cache - {GetTileID(x, y, zoom)};
      scheduled := scheduled + [DeferredRequest(xFake, y, zoom)];
    }

    /**
     * `LoadTextureFromDisk`: `image` is the decoded cache file, `None` when
     * it does not decode (a missing file never does). A decoded file is
     * emitted as a loaded texture for the displayed x; a corrupted one is
     * deleted and the tile requested again, and nothing is emitted.
     */
    method LoadTextureFromDisk(xFake: int, x: int, y: int, zoom: int, image: Option<int>)
      requires Valid() && zoom >= 0 && x == RealX(xFake, zoom)
      requires GetTileID(x, y, zoom) !in cache ==> image == None
      modifies this
      ensures Valid()
      ensures fetches == old(fetches)
      ensures image.None? ==>
        && cache == old(cache) - {GetTileID(x, y, zoom)}
        && scheduled == old(scheduled) + [DeferredRequest(xFake, y, zoom)]
        && emitted == old(emitted)
      ensures image.Some? ==>
        && cache == old(cache) && scheduled == old(scheduled)
        && emitted == old(emitted) + [TextureReady(Loaded(image.value), xFake, y, zoom)]
    {
      if image.None? {
        UpdateTile(xFake, x, y, zoom);
        return;
      }
      emitted := emitted + [TextureReady(Loaded(image.value), xFake, y, zoom)];
    }

    /**
     * `DownloadTexture`: calls `HttpRequest.Request` for the real tile; if
     * the request fails to start, emits the failed texture for the displayed x.
     */
    method DownloadTexture(xFake: int, x: int, y: int, zoom: int, started: bool)
      requires Valid() && zoom >= 0 && x == RealX(xFake, zoom)
      modifies this
      ensures Valid()
      ensures cache == old(cache)
      ensures fetches == old(fetches) + [TileKey(zoom, x, y)]
      ensures started ==> scheduled == old(scheduled) + [PendingDownload(xFake, x, y, zoom)] && emitted == old(emitted)
      ensures !started ==> scheduled == old(scheduled) && emitted == old(emitted) + [TextureReady(Failed, xFake, y, zoom)]
    {
      fetches := fetches + [TileKey(zoom, x, y)];
      if !started {
        emitted := emitted + [TextureReady(Failed, xFake, y, zoom)];
        return;
      }
      scheduled := scheduled + [PendingDownload(xFake, x, y, zoom)];
    }

    /**
     * `OnRequestCompleted`: `success` is whether the transfer succeeded and
     * `decodes` whether its body is a PNG image. Either failure emits the
     * failed texture and leaves the cache alone; otherwise the image is
     * saved under the real tile's ID at time `now` and a disk read of it is
     * scheduled.
     */
    method OnRequestCompleted(xFake: int, x: int, y: int, zoom: int, success: bool, decodes: bool, now: int)
      requires Valid() && zoom >= 0 && x == RealX(xFake, zoom)
      modifies this
      ensures Valid()
      ensures fetches == old(fetches)
      ensures !(success && decodes) ==>
        && cache == old(cache) && scheduled == old(scheduled)
        && emitted == old(emitted) + [TextureReady(Failed, xFake, y, zoom)]
      ensures success && decodes ==>
        && cache == old(cache)[GetTileID(x, y, zoom) := now]
        && scheduled == old(scheduled) + [DiskRead(xFake, x, y, zoom)]
        && emitted == old(emitted)
    {
      if !success {
        emitted := emitted + [TextureReady(Failed, xFake, y, zoom)];
        return;
      }
      if !decodes {
        emitted := emitted + [TextureReady(Failed, xFake, y, zoom)];
        return;
      }
      cache := cache[GetTileID(x, y, zoom) := now];
      scheduled := scheduled + [DiskRead(xFake, x, y, zoom)];
    }
  }

  /**
   * A stale entry is deleted before the tile is requested again, so the
   * deferred re-request always downloads.
   */
  method RefreshDownloads(d: TileDownloader, xFake: int, y: int, zoom: int, now: int, started: bool)
    requires d.Valid() && zoom >= 0
    requires Classify(d.cache, GetTileID(RealX(xFake, zoom), y, zoom), now) == Stale
    modifies d
    ensures d.Valid()
    ensures d.fetches == old(d.fetches) + [TileKey(zoom, RealX(xFake, zoom), y)]
    ensures GetTileID(RealX(xFake, zoom), y, zoom) !in d.cache
  {
    d.RequestTexture(xFake, y, zoom, now, started);
    d.RequestTexture(xFake, y, zoom, now, started);
  }

  /**
   * From an empty cache, a tile is downloaded once, saved as one cache
   * entry and delivered once for its displayed x; asked again within the
   * cache time, it is read from disk without a second download.
   */
  method FirstDownloadThenDiskRead(xFake: int, y: int, zoom: nat, now: int, later: int, image: int) returns (d: TileDownloader)
    requires now <= later <= now + TileCacheTime
    ensures var x := RealX(xFake, zoom);
      && d.fetches == [TileKey(zoom, x, y)]
      && d.cache == map[GetTileID(x, y, zoom) := now]
      && d.emitted == [TextureReady(Loaded(image), xFake, y, zoom)]
      && d.scheduled == [PendingDownload(xFake, x, y, zoom), DiskRead(xFake, x, y, zoom), DiskRead(xFake, x, y, zoom)]
  {
    var x := RealX(xFake, zoom);
    d := new TileDownloader(map[]);
    d.RequestTexture(xFake, y, zoom, now, true);
    d.OnRequestCompleted(xFake, x, y, zoom, true, true, now);
    d.LoadTextureFromDisk(xFake, x, y, zoom, Some(image));
    d.RequestTexture(xFake, y, zoom, later, true);
  }

  /** The ID of tile (10, 20) at zoom 5 is `z5x10y20`. */
  lemma {:induction false} TileIDExample()
    ensures GetTileID(10, 20, 5) == "z5x10y20"
  {
    assert IntToString(10) == "10" && IntToString(20) == "20" && IntToString(5) == "5";
  }
}

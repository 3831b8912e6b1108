/**
 * Routing one chunk of the splitter's output to a tile, as the body of the
 * loop over `pipeline.arrays` in rxp2ply.py's `tile_data` does it: tag every
 * point with the scan id, drop the points outside the snapped box (bounds
 * inclusive), skip an empty chunk, floor the chunk's minimum corner to the
 * tile lattice and look that origin up in the tile table.
 */
module Routing {
  import opened Numerals
  import opened Extent
  import opened TileGrid

  /** One point as the splitter delivers it. */
  datatype RawPoint = RawPoint(x: real, y: real, z: real, reflectance: real, deviation: real,
                               returnNumber: int, numberOfReturns: int)

  /** One saved record: the point's fields kept by `tile_data`, and the scan id `sp`. */
  datatype PointRecord = PointRecord(x: real, y: real, z: real, reflectance: real, deviation: real,
                                     returnNumber: int, numberOfReturns: int, sp: int)

  /** `arr.loc[:, 'sp'] = sp` followed by the column selection. */
  function Tag(chunk: seq<RawPoint>, sp: int): (recs: seq<PointRecord>)
    ensures |recs| == |chunk|
    ensures forall k :: 0 <= k < |recs| ==>
      recs[k].sp == sp && recs[k].x == chunk[k].x && recs[k].y == chunk[k].y && recs[k].z == chunk[k].z
      && recs[k].reflectance == chunk[k].reflectance && recs[k].deviation == chunk[k].deviation
      && recs[k].returnNumber == chunk[k].returnNumber && recs[k].numberOfReturns == chunk[k].numberOfReturns
  {
    seq(|chunk|, k requires 0 <= k < |chunk| =>
      var p := chunk[k];
      PointRecord(p.x, p.y, p.z, p.reflectance, p.deviation, p.returnNumber, p.numberOfReturns, sp))
  }

  /** pandas' `between`: both ends included. */
  predicate InBox(r: PointRecord, box: BBox)
  {
    box.minX <= r.x <= box.maxX && box.minY <= r.y <= box.maxY
  }

  /** The records inside the box, in their original order. */
  function Clip(recs: seq<PointRecord>, box: BBox): (kept: seq<PointRecord>)
    ensures forall r :: r in kept ==> r in recs && InBox(r, box)
    ensures forall r :: r in recs && InBox(r, box) ==> r in kept
    ensures |kept| <= |recs|
  {
    if recs == [] then []
    else (if InBox(recs[0], box) then [recs[0]] else []) + Clip(recs[1..], box)
  }

  /** The filter keeps every in-box row as often as it occurs, and no other row. */
  lemma {:induction false} ClipCounts(recs: seq<PointRecord>, box: BBox)
    ensures forall r :: multiset(Clip(recs, box))[r] == if InBox(r, box) then multiset(recs)[r] else 0
  {
    if recs != [] {
      ClipCounts(recs[1..], box);
      assert recs == [recs[0]] + recs[1..];
      assert Clip(recs, box) == (if InBox(recs[0], box) then [recs[0]] else []) + Clip(recs[1..], box);
    }
  }

  function MinX(recs: seq<PointRecord>): (m: real)
    requires |recs| > 0
    ensures exists r :: r in recs && r.x == m
    ensures forall r :: r in recs ==> m <= r.x
  {
    if |recs| == 1 then recs[0].x
    else Min(recs[0].x, MinX(recs[1..]))
  }

  function MinY(recs: seq<PointRecord>): (m: real)
    requires |recs| > 0
    ensures exists r :: r in recs && r.y == m
    ensures forall r :: r in recs ==> m <= r.y
  {
    if |recs| == 1 then recs[0].y
    else Min(recs[0].y, MinY(recs[1..]))
  }

  /** `(arr[['x', 'y']].min() // tile * tile).astype(int)`. */
  function ChunkOrigin(recs: seq<PointRecord>, tile: real): Origin
    requires |recs| > 0 && tile > 0.0
  {
    Origin(Trunc(Snap(MinX(recs), tile)), Trunc(Snap(MinY(recs), tile)))
  }

  /** The rows of the tile table at a given origin, in table order. */
  function Matching(tiles: seq<Tile>, o: Origin): (ms: seq<Tile>)
    ensures forall t :: t in ms ==> t in tiles && OriginOf(t) == o
    ensures forall t :: t in tiles && OriginOf(t) == o ==> t in ms
  {
    if tiles == [] then []
    else (if OriginOf(tiles[0]) == o then [tiles[0]] else []) + Matching(tiles[1..], o)
  }

  /** The result of the table lookup and `.item()`. */
  datatype Lookup = NoTile | OneTile(tile: Tile) | Ambiguous

  function Find(tiles: seq<Tile>, o: Origin): (l: Lookup)
    ensures l == NoTile <==> forall k :: 0 <= k < |tiles| ==> OriginOf(tiles[k]) != o
    ensures l.OneTile? ==> l.tile in tiles && OriginOf(l.tile) == o
    ensures l == Ambiguous <==> |Matching(tiles, o)| >= 2
    ensures l.OneTile? ==> Matching(tiles, o) == [l.tile]
  {
    var ms := Matching(tiles, o);
    if |ms| == 0 then
      assert forall k :: 0 <= k < |tiles| ==> OriginOf(tiles[k]) != o by {
        forall k | 0 <= k < |tiles| ensures OriginOf(tiles[k]) != o {
          assert tiles[k] in tiles;
        }
      }
      NoTile
    else if |ms| == 1 then
      assert ms[0] in ms;
      OneTile(ms[0])
    else
      assert ms[0] in ms;
      Ambiguous
  }

  lemma {:induction false} NoMatch(tiles: seq<Tile>, o: Origin)
    requires forall t :: t in tiles ==> OriginOf(t) != o
    ensures Matching(tiles, o) == []
  {
    if tiles != [] {
      NoMatch(tiles[1..], o);
    }
  }

  /** Two rows at one origin make `.item()` raise; unique origins rule that out. */
  lemma {:induction false} AtMostOneMatch(tiles: seq<Tile>, o: Origin)
    requires UniqueOrigins(tiles)
    ensures |Matching(tiles, o)| <= 1
  {
    if tiles != [] {
      AtMostOneMatch(tiles[1..], o);
      if OriginOf(tiles[0]) == o {
        forall t | t in tiles[1..] ensures OriginOf(t) != o {
          var k :| 0 <= k < |tiles[1..]| && tiles[1..][k] == t;
          assert tiles[k + 1] == t;
        }
        NoMatch(tiles[1..], o);
      }
    }
  }

  /** With unique origins the lookup never raises. */
  lemma FindUnambiguous(tiles: seq<Tile>, o: Origin)
    requires UniqueOrigins(tiles)
    ensures Find(tiles, o) != Ambiguous
  {
    AtMostOneMatch(tiles, o);
  }

  /** What one pass of the loop body does with a chunk. */
  datatype Routed =
    | Skipped                                        // empty after clipping: `continue`
    | Unassigned                                     // no tile at the origin: `continue`
    | Raised                                         // `.item()` on several rows
    | ToTile(tile: Tile, recs: seq<PointRecord>)     // appended to the tile's fragment

  function RouteChunk(tiles: seq<Tile>, box: BBox, tile: real, sp: int, chunk: seq<RawPoint>): (r: Routed)
    requires tile > 0.0
    ensures r == Skipped <==> Clip(Tag(chunk, sp), box) == []
    ensures r.ToTile? ==>
      r.recs == Clip(Tag(chunk, sp), box) && r.recs != [] && r.tile in tiles && OriginOf(r.tile) == ChunkOrigin(r.recs, tile)
    ensures r.ToTile? ==> forall q :: q in r.recs ==> InBox(q, box) && q.sp == sp
    ensures r == Unassigned <==> (Clip(Tag(chunk, sp), box) != [] &&
      forall k :: 0 <= k < |tiles| ==> OriginOf(tiles[k]) != ChunkOrigin(Clip(Tag(chunk, sp), box), tile))
    ensures r == Raised <==> (Clip(Tag(chunk, sp), box) != [] &&
      |Matching(tiles, ChunkOrigin(Clip(Tag(chunk, sp), box), tile))| >= 2)
  {
    var recs := Clip(Tag(chunk, sp), box);
    if |recs| == 0 then Skipped
    else
      match Find(tiles, ChunkOrigin(recs, tile))
      case NoTile => Unassigned
      case Ambiguous => Raised
      case OneTile(t) => ToTile(t, recs)
  }

  /** On a table with unique origins, routing never raises. */
  lemma RoutingNeverRaises(tiles: seq<Tile>, box: BBox, tile: real, sp: int, chunk: seq<RawPoint>)
    requires tile > 0.0 && UniqueOrigins(tiles)
    ensures RouteChunk(tiles, box, tile, sp, chunk) != Raised
  {
    var recs := Clip(Tag(chunk, sp), box);
    if |recs| > 0 {
      FindUnambiguous(tiles, ChunkOrigin(recs, tile));
    }
  }

  /** A value in `[p * tile, (p + 1) * tile)` floors to lattice index `p`. */
  lemma FloorInCell(v: real, p: int, tile: real)
    requires tile > 0.0 && p as real * tile <= v < (p + 1) as real * tile
    ensures (v / tile).Floor == p
    ensures Snap(v, tile) == p as real * tile
  {
    assert (p + 1) as real == p as real + 1.0;
    DivBetween(v, tile, p as real, p as real + 1.0);
  }

  /** Dividing by a positive `tile` keeps `v` between the bounds it lay between as multiples of `tile`. */
  lemma DivBetween(v: real, tile: real, lo: real, hi: real)
    requires tile > 0.0 && lo * tile <= v < hi * tile
    ensures lo <= v / tile < hi
  {
    var q := v / tile;
    assert q * tile == v;
    if q < lo {
      MulLt(q, lo, tile);
    }
    if q >= hi {
      MulLe(hi, q, tile);
    }
  }

  /**
   * A chunk whose points all lie in the cell `[p * tile, (p + 1) * tile) x
   * [q * tile, (q + 1) * tile)` is routed to the origin of that cell.
   */
  lemma ChunkInCell(recs: seq<PointRecord>, tile: real, p: int, q: int)
    requires tile > 0.0 && |recs| > 0
    requires forall r :: r in recs ==> p as real * tile <= r.x < (p + 1) as real * tile
    requires forall r :: r in recs ==> q as real * tile <= r.y < (q + 1) as real * tile
    ensures ChunkOrigin(recs, tile) == Origin(Trunc(p as real * tile), Trunc(q as real * tile))
  {
    var mx, my := MinX(recs), MinY(recs);
    var rx :| rx in recs && rx.x == mx;
    var ry :| ry in recs && ry.y == my;
    assert p as real * tile <= mx < (p + 1) as real * tile;
    assert q as real * tile <= my < (q + 1) as real * tile;
    FloorInCell(mx, p, tile);
    FloorInCell(my, q, tile);
    assert ChunkOrigin(recs, tile) == Origin(Trunc(Snap(mx, tile)), Trunc(Snap(my, tile)));
  }

  /**
   * With unique origins, a non-empty clipped chunk whose origin is the origin
   * of tile `k` is routed to tile `k`, with all its clipped records.
   */
  lemma RoutesToTileAtOrigin(tiles: seq<Tile>, box: BBox, tile: real, sp: int, chunk: seq<RawPoint>, k: nat)
    requires tile > 0.0 && UniqueOrigins(tiles) && k < |tiles|
    requires Clip(Tag(chunk, sp), box) != []
    requires ChunkOrigin(Clip(Tag(chunk, sp), box), tile) == OriginOf(tiles[k])
    ensures RouteChunk(tiles, box, tile, sp, chunk) == ToTile(tiles[k], Clip(Tag(chunk, sp), box))
  {
    var recs := Clip(Tag(chunk, sp), box);
    var o := ChunkOrigin(recs, tile);
    FindUnambiguous(tiles, o);
    var l := Find(tiles, o);
    assert l.OneTile?;
    var j :| 0 <= j < |tiles| && tiles[j] == l.tile;
    assert OriginOf(tiles[j]) == OriginOf(tiles[k]);
    assert j == k;
  }

  /** A single point inside the box survives clipping. */
  lemma SinglePointKept(p: RawPoint, box: BBox, sp: int)
    requires box.minX <= p.x <= box.maxX && box.minY <= p.y <= box.maxY
    ensures Clip(Tag([p], sp), box) == Tag([p], sp)
  {
    var t := Tag([p], sp);
    assert InBox(t[0], box);
    assert t[1..] == [];
  }

  /** A one-point chunk inside the box and inside cell `(p, q)` goes to the tile at that cell's origin. */
  lemma PointRoutesToCell(tiles: seq<Tile>, box: BBox, tile: real, sp: int, pt: RawPoint, p: int, q: int, k: nat)
    requires tile > 0.0 && UniqueOrigins(tiles) && k < |tiles|
    requires box.minX <= pt.x <= box.maxX && box.minY <= pt.y <= box.maxY
    requires p as real * tile <= pt.x < (p + 1) as real * tile
    requires q as real * tile <= pt.y < (q + 1) as real * tile
    requires OriginOf(tiles[k]) == Origin(Trunc(p as real * tile), Trunc(q as real * tile))
    ensures RouteChunk(tiles, box, tile, sp, [pt]) == ToTile(tiles[k], Tag([pt], sp))
  {
    SinglePointKept(pt, box, sp);
    var t := Tag([pt], sp);
    assert forall r :: r in t ==> r == t[0];
    ChunkInCell(t, tile, p, q);
    RoutesToTileAtOrigin(tiles, box, tile, sp, [pt], k);
  }

  /** On the four-tile table, a point at (5, 5) goes to tile 0 and one at (15, 15) to tile 3. */
  lemma FourTileRouting(tiles: seq<Tile>, a: RawPoint, b: RawPoint)
    requires tiles == [Tile(0, 0, 0), Tile(1, 10, 0), Tile(2, 0, 10), Tile(3, 10, 10)]
    requires a.x == 5.0 && a.y == 5.0 && b.x == 15.0 && b.y == 15.0
    ensures var box := BBox(0.0, 0.0, 20.0, 20.0);
      var ra, rb := RouteChunk(tiles, box, 10.0, 1, [a]), RouteChunk(tiles, box, 10.0, 1, [b]);
      ra.ToTile? && ra.tile.id == 0 && rb.ToTile? && rb.tile.id == 3
  {
    var box := BBox(0.0, 0.0, 20.0, 20.0);
    assert Trunc(0.0) == 0 && Trunc(10.0) == 10;
    assert 0 as real * 10.0 == 0.0 && (0 + 1) as real * 10.0 == 10.0;
    assert 1 as real * 10.0 == 10.0 && (1 + 1) as real * 10.0 == 20.0;
    PointRoutesToCell(tiles, box, 10.0, 1, a, 0, 0, 0);
    PointRoutesToCell(tiles, box, 10.0, 1, b, 1, 1, 3);
  }
}

/**
 * The processing extent of rxp2ply.py's `main`: which of the five extent
 * modes a run uses, the bounds of the resulting polygon, and the snapping of
 * those bounds down onto the tile lattice.
 */
module Extent {
  import opened Wrappers

  /** An axis-aligned box `[xmin, ymin, xmax, ymax]`. */
  datatype BBox = BBox(minX: real, minY: real, maxX: real, maxY: real)

  /**
   * The extent options: `--bbox` (empty, or the four integers argparse
   * collected), `--bounding-geometry` (a path; the empty string stands for
   * the option's falsy default), `--rotate-bbox` and `--convex-hull`.
   */
  datatype ExtentArgs = ExtentArgs(bbox: seq<int>, boundingGeometry: string, rotateBbox: bool, convexHull: bool)

  predicate WellFormed(a: ExtentArgs)
  {
    |a.bbox| == 0 || |a.bbox| == 4
  }

  /** The boundary polygon a run builds, one constructor per branch of `main`. */
  datatype ExtentMode =
    | ExplicitBox(xmin: int, ymin: int, xmax: int, ymax: int)
    | ExternalGeometry(path: string)
    | RotatedMinRect
    | ConvexHull
    | Envelope

  datatype ExtentError =
    | BoxAndGeometry    // the explicit Exception raised when both options are given
    | PolygonUndefined  // the NameError raised by the explicit-box branch as written

  /** The option kinds, in the order `main` tests them. */
  datatype ModeKind = BoxKind | GeometryKind | RotateKind | HullKind | EnvelopeKind

  function KindOf(m: ExtentMode): ModeKind
  {
    match m
    case ExplicitBox(_, _, _, _) => BoxKind
    case ExternalGeometry(_) => GeometryKind
    case RotatedMinRect => RotateKind
    case ConvexHull => HullKind
    case Envelope => EnvelopeKind
  }

  /** The options a user gave, in precedence order (a reference description independent of `main`'s if-chain). */
  function Requested(a: ExtentArgs): seq<ModeKind>
  {
    (if |a.bbox| > 0 then [BoxKind] else [])
    + (if a.boundingGeometry != "" then [GeometryKind] else [])
    + (if a.rotateBbox then [RotateKind] else [])
    + (if a.convexHull then [HullKind] else [])
  }

  /**
   * `main`'s extent branch as written: the explicit-box branch calls
   * `Polygon`, which the script never imports, so it raises NameError;
   * a given `--bbox` therefore never yields an extent.
   */
  function SelectExtentAsWritten(a: ExtentArgs): (r: Result<ExtentMode, ExtentError>)
    requires WellFormed(a)
    ensures |a.bbox| > 0 ==> r.Err?
    ensures |a.bbox| > 0 && a.boundingGeometry == "" ==> r == Err(PolygonUndefined)
  {
    if a.boundingGeometry != "" && |a.bbox| > 0 then Err(BoxAndGeometry)
    else if |a.bbox| > 0 then Err(PolygonUndefined)
    else if a.boundingGeometry != "" then Ok(ExternalGeometry(a.boundingGeometry))
    else if a.rotateBbox then Ok(RotatedMinRect)
    else if a.convexHull then Ok(ConvexHull)
    else Ok(Envelope)
  }

  /** The explicit-box scenario `[0, 0, 20, 20]` cannot run as written. */
  lemma ExplicitBoxRaisesAsWritten()
    ensures SelectExtentAsWritten(ExtentArgs([0, 0, 20, 20], "", false, false)) == Err(PolygonUndefined)
  {
  }

  /**
   * The extent branch with the box polygon built: giving both a box and a
   * geometry fails before any extent exists; otherwise the first requested
   * mode in precedence order wins, and the envelope is the fallback.
   */
  function SelectExtent(a: ExtentArgs): (r: Result<ExtentMode, ExtentError>)
    requires WellFormed(a)
    ensures r.Err? <==> BoxKind in Requested(a) && GeometryKind in Requested(a)
    ensures r.Err? ==> r.error == BoxAndGeometry
    ensures r.Ok? ==> KindOf(r.value) == if Requested(a) == [] then EnvelopeKind else Requested(a)[0]
    ensures r.Ok? && r.value.ExplicitBox? ==> r.value == ExplicitBox(a.bbox[0], a.bbox[1], a.bbox[2], a.bbox[3])
    ensures r.Ok? && r.value.ExternalGeometry? ==> r.value.path == a.boundingGeometry
  {
    if a.boundingGeometry != "" && |a.bbox| > 0 then Err(BoxAndGeometry)
    else if |a.bbox| > 0 then Ok(ExplicitBox(a.bbox[0], a.bbox[1], a.bbox[2], a.bbox[3]))
    else if a.boundingGeometry != "" then Ok(ExternalGeometry(a.boundingGeometry))
    else if a.rotateBbox then Ok(RotatedMinRect)
    else if a.convexHull then Ok(ConvexHull)
    else Ok(Envelope)
  }

  /** The two selectors differ only where the box branch raises. */
  lemma SelectorsAgreeWithoutBox(a: ExtentArgs)
    requires WellFormed(a) && |a.bbox| == 0
    ensures SelectExtentAsWritten(a) == SelectExtent(a)
  {
  }

  function Min(a: real, b: real): real { if a <= b then a else b }
  function Max(a: real, b: real): real { if a <= b then b else a }

  /**
   * The bounds of the extent polygon. An explicit box is the polygon through
   * its four corners, so its bounds are their minimum and maximum; every
   * other mode's polygon comes from the geometry library, whose bounds
   * arrive as `geometryBounds`. The rotated-rectangle, hull and envelope
   * modes buffer their polygon outward by tile + margin; a bounding
   * geometry read from a file is used as it is.
   */
  function ExtentBounds(mode: ExtentMode, geometryBounds: BBox): (b: BBox)
    ensures b.minX <= b.maxX || !mode.ExplicitBox?
    ensures mode.ExplicitBox? ==> b.minX <= mode.xmin as real <= b.maxX && b.minY <= mode.ymin as real <= b.maxY
    ensures mode.ExplicitBox? ==> b.minX <= mode.xmax as real <= b.maxX && b.minY <= mode.ymax as real <= b.maxY
    ensures mode.ExplicitBox? ==>
      && (b.minX == mode.xmin as real || b.minX == mode.xmax as real)
      && (b.maxX == mode.xmin as real || b.maxX == mode.xmax as real)
      && (b.minY == mode.ymin as real || b.minY == mode.ymax as real)
      && (b.maxY == mode.ymin as real || b.maxY == mode.ymax as real)
    ensures !mode.ExplicitBox? ==> b == geometryBounds
  {
    match mode
    case ExplicitBox(x0, y0, x2, y3) =>
      BBox(Min(x0 as real, x2 as real), Min(y0 as real, y3 as real), Max(x0 as real, x2 as real), Max(y0 as real, y3 as real))
    case _ => geometryBounds
  }

  /** `v` is an integer multiple of `tile`. */
  predicate OnLattice(v: real, tile: real)
    requires tile > 0.0
  {
    (v / tile).Floor as real * tile == v
  }

  lemma MultipleOnLattice(k: int, tile: real)
    requires tile > 0.0
    ensures OnLattice(k as real * tile, tile)
  {
    assert (k as real * tile) / tile == k as real;
  }

  lemma MulLe(a: real, b: real, t: real)
    requires a <= b && t > 0.0
    ensures a * t <= b * t
  {
  }

  lemma MulLt(a: real, b: real, t: real)
    requires a < b && t > 0.0
    ensures a * t < b * t
  {
  }

  lemma FloorBracket(b: real, tile: real)
    requires tile > 0.0
    ensures var k := (b / tile).Floor; k as real * tile <= b < k as real * tile + tile
  {
    var q := b / tile;
    var k := q.Floor;
    var kr := k as real;
    assert q * tile == b;
    MulLe(kr, q, tile);
    assert q < kr + 1.0;
    MulLt(q, kr + 1.0, tile);
    assert b < (kr + 1.0) * tile;
    assert (kr + 1.0) * tile == kr * tile + tile;
  }

  /** numpy's `b // tile * tile`: the largest multiple of `tile` not above `b`. */
  function Snap(b: real, tile: real): (s: real)
    requires tile > 0.0
    ensures OnLattice(s, tile)
    ensures b - tile < s <= b
  {
    var k := (b / tile).Floor;
    FloorBracket(b, tile);
    MultipleOnLattice(k, tile);
    k as real * tile
  }

  /** A bound already on the lattice is left where it is, so snapping twice is snapping once. */
  lemma SnapIdempotent(b: real, tile: real)
    requires tile > 0.0
    ensures Snap(Snap(b, tile), tile) == Snap(b, tile)
  {
    var s := Snap(b, tile);
    var k := (s / tile).Floor;
    assert k as real * tile == s;
    assert (s / tile) == k as real;
  }

  /** `(extent.exterior.bounds.values[0] // args.tile) * args.tile`: all four bounds snapped down. */
  function SnapBox(b: BBox, tile: real): (r: BBox)
    requires tile > 0.0
    ensures OnLattice(r.minX, tile) && OnLattice(r.minY, tile) && OnLattice(r.maxX, tile) && OnLattice(r.maxY, tile)
    ensures b.minX - tile < r.minX <= b.minX && b.minY - tile < r.minY <= b.minY
    ensures b.maxX - tile < r.maxX <= b.maxX && b.maxY - tile < r.maxY <= b.maxY
  {
    BBox(Snap(b.minX, tile), Snap(b.minY, tile), Snap(b.maxX, tile), Snap(b.maxY, tile))
  }
}

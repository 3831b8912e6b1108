/**
 * The tile table of rxp2ply.py's `main`: the lattice points of the snapped
 * box (`np.meshgrid` over two `np.arange` axes, flattened row by row, so y
 * is the outer and x the inner index), cast to int, kept when the extent
 * polygon contains them (the spatial join, here an abstract predicate), and
 * numbered densely from 0; plus the zero-padded tile names.
 */
module TileGrid {
  import opened Wrappers
  import opened Numerals
  import opened Extent

  /** A lattice point after `.astype(int)`. */
  datatype Origin = Origin(x: int, y: int)

  /** A row of the tile table: `tile`, `x`, `y`. */
  datatype Tile = Tile(id: nat, x: int, y: int)

  function OriginOf(t: Tile): Origin
  {
    Origin(t.x, t.y)
  }

  function Ceil(q: real): (c: int)
    ensures c as real - 1.0 < q <= c as real
  {
    -((-q).Floor)
  }

  /** `len(np.arange(lo, hi, step))`: how many of `lo, lo + step, ...` lie below `hi`. */
  function AxisCount(lo: real, hi: real, step: real): nat
    requires step > 0.0
  {
    if hi <= lo then 0
    else
      assert (hi - lo) / step > 0.0;
      Ceil((hi - lo) / step)
  }

  /** The `i`-th value of the axis exists exactly when it lies below the stop value. */
  lemma AxisCountSpec(lo: real, hi: real, step: real, i: nat)
    requires step > 0.0
    ensures i < AxisCount(lo, hi, step) <==> lo + i as real * step < hi
  {
    var ir := i as real;
    if hi <= lo {
      assert ir * step >= 0.0;
    } else {
      var q := (hi - lo) / step;
      assert q * step == hi - lo;
      var c := Ceil(q);
      if i < c {
        assert ir <= c as real - 1.0 < q;
        MulLt(ir, q, step);
      } else {
        assert q <= c as real <= ir;
        MulLe(q, ir, step);
      }
    }
  }

  /** The lattice point in column `i` and row `j`, cast to int. */
  function LatticePoint(box: BBox, tile: real, i: nat, j: nat): Origin
  {
    Origin(Trunc(box.minX + i as real * tile), Trunc(box.minY + j as real * tile))
  }

  function Columns(box: BBox, tile: real): nat
    requires tile > 0.0
  {
    AxisCount(box.minX, box.maxX, tile)
  }

  function Rows(box: BBox, tile: real): nat
    requires tile > 0.0
  {
    AxisCount(box.minY, box.maxY, tile)
  }

  /** Row `j` of the meshgrid: columns `0 .. nx - 1`. */
  function GridRow(box: BBox, tile: real, nx: nat, j: nat): (row: seq<Origin>)
    ensures |row| == nx
  {
    seq(nx, i requires 0 <= i < nx => LatticePoint(box, tile, i, j))
  }

  /** Rows `0 .. ny - 1` of the meshgrid, flattened in order: y outer, x inner. */
  function GridRows(box: BBox, tile: real, nx: nat, ny: nat): (cells: seq<Origin>)
    ensures |cells| == ny * nx
  {
    if ny == 0 then [] else GridRows(box, tile, nx, ny - 1) + GridRow(box, tile, nx, ny - 1)
  }

  /** `np.vstack([X.flatten(), Y.flatten()]).T.astype(int)`. */
  function Candidates(box: BBox, tile: real): (cells: seq<Origin>)
    requires tile > 0.0
    ensures |cells| == Rows(box, tile) * Columns(box, tile)
  {
    GridRows(box, tile, Columns(box, tile), Rows(box, tile))
  }

  /** Cell `(i, j)` sits at flat index `j * nx + i`. */
  lemma {:induction false} GridIndex(box: BBox, tile: real, nx: nat, ny: nat, i: nat, j: nat)
    requires i < nx && j < ny
    ensures j * nx + i < |GridRows(box, tile, nx, ny)|
    ensures GridRows(box, tile, nx, ny)[j * nx + i] == LatticePoint(box, tile, i, j)
  {
    var prefix := GridRows(box, tile, nx, ny - 1);
    if j < ny - 1 {
      GridIndex(box, tile, nx, ny - 1, i, j);
    } else {
      assert |prefix| == j * nx;
    }
  }

  /** Every flat index is some cell `(i, j)` of the lattice. */
  lemma {:induction false} GridCell(box: BBox, tile: real, nx: nat, ny: nat, p: nat)
    requires p < |GridRows(box, tile, nx, ny)|
    ensures exists i: nat, j: nat :: (i < nx && j < ny && p == j * nx + i
      && GridRows(box, tile, nx, ny)[p] == LatticePoint(box, tile, i, j))
  {
    var prefix := GridRows(box, tile, nx, ny - 1);
    if p < |prefix| {
      GridCell(box, tile, nx, ny - 1, p);
    } else {
      var i, j := p - |prefix|, ny - 1;
      assert GridRows(box, tile, nx, ny)[p] == GridRow(box, tile, nx, j)[i];
      assert p == j * nx + i;
    }
  }

  /** Cell `(i, j)` of the lattice sits at flat index `j * nx + i` of the candidates. */
  lemma CandidateAt(box: BBox, tile: real, i: nat, j: nat)
    requires tile > 0.0 && i < Columns(box, tile) && j < Rows(box, tile)
    ensures var k := j * Columns(box, tile) + i;
      k < |Candidates(box, tile)| && Candidates(box, tile)[k] == LatticePoint(box, tile, i, j)
  {
    GridIndex(box, tile, Columns(box, tile), Rows(box, tile), i, j);
  }

  /** The positions, from `from` on, of the cells the polygon contains (see `KeptInside`, `KeptIncreasing` and `KeptComplete`). */
  function Kept(cells: seq<Origin>, inside: Origin -> bool, from: nat): (ps: seq<nat>)
    requires from <= |cells|
    ensures forall k :: 0 <= k < |ps| ==> from <= ps[k] < |cells|
    decreases |cells| - from
  {
    if from == |cells| then []
    else (if inside(cells[from]) then [from] else []) + Kept(cells, inside, from + 1)
  }

  /** Every kept position is that of a cell the polygon contains. */
  lemma {:induction false} KeptInside(cells: seq<Origin>, inside: Origin -> bool, from: nat)
    requires from <= |cells|
    ensures forall k :: 0 <= k < |Kept(cells, inside, from)| ==> inside(cells[Kept(cells, inside, from)[k]])
    decreases |cells| - from
  {
    if from < |cells| {
      KeptInside(cells, inside, from + 1);
      var head := if inside(cells[from]) then [from] else [];
      var rest := Kept(cells, inside, from + 1);
      var ps := Kept(cells, inside, from);
      assert ps == head + rest;
      forall k | 0 <= k < |ps| ensures inside(cells[ps[k]]) {
        if k >= |head| {
          assert ps[k] == rest[k - |head|];
        } else {
          assert head == [from] && ps[k] == from;
        }
      }
    }
  }

  /** The kept positions are strictly increasing. */
  lemma {:induction false} KeptIncreasing(cells: seq<Origin>, inside: Origin -> bool, from: nat)
    requires from <= |cells|
    ensures forall a, b :: 0 <= a < b < |Kept(cells, inside, from)| ==> Kept(cells, inside, from)[a] < Kept(cells, inside, from)[b]
    decreases |cells| - from
  {
    if from < |cells| {
      KeptIncreasing(cells, inside, from + 1);
      var head := if inside(cells[from]) then [from] else [];
      var rest := Kept(cells, inside, from + 1);
      var ps := Kept(cells, inside, from);
      assert ps == head + rest;
      forall a, b | 0 <= a < b < |ps| ensures ps[a] < ps[b] {
        assert ps[b] == rest[b - |head|];
        if a >= |head| {
          assert ps[a] == rest[a - |head|];
        }
      }
    }
  }

  /** Every position from `from` on whose cell the polygon contains is kept. */
  lemma {:induction false} KeptComplete(cells: seq<Origin>, inside: Origin -> bool, from: nat)
    requires from <= |cells|
    ensures forall p :: from <= p < |cells| && inside(cells[p]) ==> p in Kept(cells, inside, from)
    decreases |cells| - from
  {
    if from < |cells| {
      KeptComplete(cells, inside, from + 1);
      var head := if inside(cells[from]) then [from] else [];
      var rest := Kept(cells, inside, from + 1);
      var ps := Kept(cells, inside, from);
      assert ps == head + rest;
      forall p | from <= p < |cells| && inside(cells[p]) ensures p in ps {
        if p == from {
          assert ps[0] == from;
        } else {
          var i :| 0 <= i < |rest| && rest[i] == p;
          assert ps[i + |head|] == p;
        }
      }
    }
  }

  /** The inner spatial join: the candidates the polygon contains, in candidate order. */
  function Retain(cells: seq<Origin>, inside: Origin -> bool): (r: seq<Origin>)
    ensures forall k :: 0 <= k < |r| ==> inside(r[k])
  {
    var ps := Kept(cells, inside, 0);
    KeptInside(cells, inside, 0);
    seq(|ps|, k requires 0 <= k < |ps| => cells[ps[k]])
  }

  /** Dense ids in table order. */
  function Number(cells: seq<Origin>): (t: seq<Tile>)
    ensures |t| == |cells|
    ensures forall k :: 0 <= k < |t| ==> t[k].id == k && OriginOf(t[k]) == cells[k]
  {
    seq(|cells|, k requires 0 <= k < |cells| => Tile(k, cells[k].x, cells[k].y))
  }

  /** `args.tiles` after the spatial join and the id assignment. */
  function TileTable(box: BBox, tile: real, inside: Origin -> bool): (t: seq<Tile>)
    requires tile > 0.0
    ensures forall k :: 0 <= k < |t| ==> t[k].id == k && inside(OriginOf(t[k]))
  {
    Number(Retain(Candidates(box, tile), inside))
  }

  /**
   * Table order follows lattice order: tile `k` is the candidate at position
   * `ps[k]`, with the positions strictly increasing.
   */
  lemma TileTableOrder(box: BBox, tile: real, inside: Origin -> bool)
    requires tile > 0.0
    ensures var t := TileTable(box, tile, inside);
      var cells := Candidates(box, tile);
      var ps := Kept(cells, inside, 0);
      |ps| == |t|
      && (forall k :: 0 <= k < |t| ==> ps[k] < |cells| && OriginOf(t[k]) == cells[ps[k]])
      && (forall a, b :: 0 <= a < b < |t| ==> ps[a] < ps[b])
  {
    KeptIncreasing(Candidates(box, tile), inside, 0);
  }

  /** Every tile origin is the cast of a lattice point `(minX + i * tile, minY + j * tile)` of the box. */
  lemma TileOnLattice(box: BBox, tile: real, inside: Origin -> bool, k: nat)
    requires tile > 0.0 && k < |TileTable(box, tile, inside)|
    ensures exists i: nat, j: nat :: (i < Columns(box, tile) && j < Rows(box, tile)
      && OriginOf(TileTable(box, tile, inside)[k]) == LatticePoint(box, tile, i, j))
  {
    var cells := Candidates(box, tile);
    var ps := Kept(cells, inside, 0);
    GridCell(box, tile, Columns(box, tile), Rows(box, tile), ps[k]);
  }

  /** Every lattice cell of the box that the polygon contains is a tile. */
  lemma TileTableComplete(box: BBox, tile: real, inside: Origin -> bool, i: nat, j: nat)
    requires tile > 0.0 && i < Columns(box, tile) && j < Rows(box, tile)
    requires inside(LatticePoint(box, tile, i, j))
    ensures exists k :: (0 <= k < |TileTable(box, tile, inside)|
      && OriginOf(TileTable(box, tile, inside)[k]) == LatticePoint(box, tile, i, j))
  {
    var cells := Candidates(box, tile);
    CandidateAt(box, tile, i, j);
    var p := j * Columns(box, tile) + i;
    var ps := Kept(cells, inside, 0);
    KeptComplete(cells, inside, 0);
    assert p in ps;
    var k :| 0 <= k < |ps| && ps[k] == p;
    assert OriginOf(TileTable(box, tile, inside)[k]) == cells[p];
  }

  /** The box `[0, 0, 20, 20]` with tile 10 has the four candidates `(0,0), (10,0), (0,10), (10,10)`. */
  lemma FourCandidates()
    ensures Candidates(BBox(0.0, 0.0, 20.0, 20.0), 10.0)
      == [Origin(0, 0), Origin(10, 0), Origin(0, 10), Origin(10, 10)]
  {
    var box := BBox(0.0, 0.0, 20.0, 20.0);
    assert (20.0 - 0.0) / 10.0 == 2.0;
    assert Columns(box, 10.0) == 2 && Rows(box, 10.0) == 2;
    assert Trunc(10.0) == 10 && Trunc(0.0) == 0;
    assert LatticePoint(box, 10.0, 1, 1) == Origin(10, 10);
    assert GridRow(box, 10.0, 2, 0) == [Origin(0, 0), Origin(10, 0)];
    assert GridRow(box, 10.0, 2, 1) == [Origin(0, 10), Origin(10, 10)];
    assert GridRows(box, 10.0, 2, 1) == GridRow(box, 10.0, 2, 0);
  }

  /** The positions `lo, lo + 1, ..., hi - 1`. */
  function Span(lo: nat, hi: nat): (ps: seq<nat>)
    requires lo <= hi
    ensures |ps| == hi - lo
    decreases hi - lo
  {
    if lo == hi then [] else [lo] + Span(lo + 1, hi)
  }

  lemma {:induction false} SpanAt(lo: nat, hi: nat, k: nat)
    requires lo <= hi && k < hi - lo
    ensures Span(lo, hi)[k] == lo + k
    decreases hi - lo
  {
    if k > 0 {
      SpanAt(lo + 1, hi, k - 1);
    }
  }

  /** A polygon that contains every cell from `from` on keeps every one of those positions. */
  lemma {:induction false} KeptAll(cells: seq<Origin>, inside: Origin -> bool, from: nat)
    requires from <= |cells|
    requires forall p :: from <= p < |cells| ==> inside(cells[p])
    ensures Kept(cells, inside, from) == Span(from, |cells|)
    decreases |cells| - from
  {
    if from < |cells| {
      KeptAll(cells, inside, from + 1);
      KeptHere(cells, inside, from);
    }
  }

  /** A candidate inside the polygon heads the retained positions from its own. */
  lemma KeptHere(cells: seq<Origin>, inside: Origin -> bool, from: nat)
    requires from < |cells| && inside(cells[from])
    ensures Kept(cells, inside, from) == [from] + Kept(cells, inside, from + 1)
  {
  }

  /** A polygon that contains every candidate retains all of them, in order. */
  lemma RetainAll(cells: seq<Origin>, inside: Origin -> bool)
    requires forall p :: 0 <= p < |cells| ==> inside(cells[p])
    ensures Retain(cells, inside) == cells
  {
    KeptAll(cells, inside, 0);
    forall k | 0 <= k < |cells| ensures Kept(cells, inside, 0)[k] == k {
      SpanAt(0, |cells|, k);
    }
  }

  /** With a polygon holding all four origins, the box `[0, 0, 20, 20]` and tile 10 give ids 0..3 row by row. */
  lemma FourTileScenario(inside: Origin -> bool)
    requires inside(Origin(0, 0)) && inside(Origin(10, 0)) && inside(Origin(0, 10)) && inside(Origin(10, 10))
    ensures var t := TileTable(BBox(0.0, 0.0, 20.0, 20.0), 10.0, inside);
      |t| == 4 && t[0] == Tile(0, 0, 0) && t[1] == Tile(1, 10, 0) && t[2] == Tile(2, 0, 10) && t[3] == Tile(3, 10, 10)
  {
    var box := BBox(0.0, 0.0, 20.0, 20.0);
    FourCandidates();
    var cells := Candidates(box, 10.0);
    assert forall p :: 0 <= p < |cells| ==> inside(cells[p]);
    RetainAll(cells, inside);
    assert TileTable(box, 10.0, inside) == Number(cells);
  }

  /** No two tiles share an origin, which `.item()` needs. */
  predicate UniqueOrigins(tiles: seq<Tile>)
  {
    forall a, b :: 0 <= a < b < |tiles| ==> OriginOf(tiles[a]) != OriginOf(tiles[b])
  }

  lemma TruncOfMultiplesDiffers(a: int, b: int, tile: real, x: real, y: real)
    requires a < b && tile >= 1.0 && x == a as real * tile && y == b as real * tile
    ensures Trunc(x) != Trunc(y)
  {
    MulLe(a as real + 1.0, b as real, tile);
    assert y - x >= tile;
    if 0 < a {
      MulLe(1.0, a as real, tile);
    }
    if b < 0 {
      MulLe(b as real, -1.0, tile);
    }
    if a < 0 {
      MulLe(a as real, -1.0, tile);
    }
    if 0 < b {
      MulLe(1.0, b as real, tile);
    }
  }

  lemma MulAdd(a: int, b: int, t: real)
    ensures (a + b) as real * t == a as real * t + b as real * t
  {
  }

  lemma AxisPointsDiffer(lo: real, tile: real, i1: nat, i2: nat)
    requires tile >= 1.0 && OnLattice(lo, tile) && i1 < i2
    ensures Trunc(lo + i1 as real * tile) != Trunc(lo + i2 as real * tile)
  {
    var m := (lo / tile).Floor;
    assert m as real * tile == lo;
    MulAdd(m, i1, tile);
    MulAdd(m, i2, tile);
    TruncOfMultiplesDiffers(m + i1, m + i2, tile, lo + i1 as real * tile, lo + i2 as real * tile);
  }

  lemma LatticePointsDiffer(box: BBox, tile: real, i1: nat, j1: nat, i2: nat, j2: nat)
    requires tile >= 1.0 && OnLattice(box.minX, tile) && OnLattice(box.minY, tile)
    requires i1 != i2 || j1 != j2
    ensures LatticePoint(box, tile, i1, j1) != LatticePoint(box, tile, i2, j2)
  {
    if i1 < i2 {
      AxisPointsDiffer(box.minX, tile, i1, i2);
    } else if i2 < i1 {
      AxisPointsDiffer(box.minX, tile, i2, i1);
    } else if j1 < j2 {
      AxisPointsDiffer(box.minY, tile, j1, j2);
    } else {
      AxisPointsDiffer(box.minY, tile, j2, j1);
    }
  }

  /** On a snapped box with a tile of at least one unit, distinct tiles have distinct origins. */
  lemma SnappedTableHasUniqueOrigins(box: BBox, tile: real, inside: Origin -> bool)
    requires tile >= 1.0 && OnLattice(box.minX, tile) && OnLattice(box.minY, tile)
    ensures UniqueOrigins(TileTable(box, tile, inside))
  {
    var t := TileTable(box, tile, inside);
    var cells := Candidates(box, tile);
    var ps := Kept(cells, inside, 0);
    KeptIncreasing(cells, inside, 0);
    var nx, ny := Columns(box, tile), Rows(box, tile);
    forall a, b | 0 <= a < b < |t| ensures OriginOf(t[a]) != OriginOf(t[b]) {
      GridCell(box, tile, nx, ny, ps[a]);
      GridCell(box, tile, nx, ny, ps[b]);
      var i1: nat, j1: nat :| i1 < nx && j1 < ny && ps[a] == j1 * nx + i1 && cells[ps[a]] == LatticePoint(box, tile, i1, j1);
      var i2: nat, j2: nat :| i2 < nx && j2 < ny && ps[b] == j2 * nx + i2 && cells[ps[b]] == LatticePoint(box, tile, i2, j2);
      LatticePointsDiffer(box, tile, i1, j1, i2, j2);
    }
  }

  /** `args.n`: the digit count of the tile count, but at least 3. */
  function PadWidth(count: nat): (n: nat)
    ensures n >= 3 && n >= |Decimal(count)|
    ensures n == 3 || n == |Decimal(count)|
  {
    var d := |Decimal(count)|;
    if d < 3 then 3 else d
  }

  /** `str(tile).zfill(args.n)`. */
  function TileName(id: nat, width: nat): string
  {
    Format(id, width, 10)
  }

  /** Below the tile count every id fills exactly the pad width, and the name reads back as the id. */
  lemma TileNameRoundTrip(id: nat, count: nat)
    requires id < count
    ensures |TileName(id, PadWidth(count))| == PadWidth(count)
    ensures ParseNat(TileName(id, PadWidth(count)), 10) == Some(id)
    ensures AllDigits(TileName(id, PadWidth(count)), 10)
  {
    DigitCountMonotone(id, count, 10);
    assert |Decimal(count)| == |Digits(count, 10)|;
    FormatLength(id, PadWidth(count), 10);
    FormatParses(id, PadWidth(count), 10);
    FormatIsDigits(id, PadWidth(count), 10);
  }

  /** Distinct ids get distinct names. */
  lemma TileNamesDistinct(a: nat, b: nat, count: nat)
    requires a < count && b < count && a != b
    ensures TileName(a, PadWidth(count)) != TileName(b, PadWidth(count))
  {
    TileNameRoundTrip(a, count);
    TileNameRoundTrip(b, count);
  }
}

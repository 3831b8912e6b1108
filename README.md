# Terrestrial-laser-scan tiling and processing helpers, in Dafny

This project models the tiling core of the `rxp2ply` pipeline. That pipeline
splits registered terrestrial laser scans into square tiles of a plot. The
project also models the smaller table-updating and naming pieces of the
helper scripts.

- **Extent selection** (module `Extent`). The boundary polygon comes from one of
  five options in fixed precedence: an explicit box, an external geometry file,
  a rotated rectangle, a convex hull, or an envelope around the scan positions.
  Giving both a box and a geometry is an error. The bounds of the chosen extent
  are snapped down to the tile lattice.
- **Tile grid** (module `TileGrid`). The lattice points of the snapped box are
  enumerated row by row, with y outer and x inner. The points the polygon
  contains are kept and numbered densely. Each tile id is zero-filled to the
  pad width to give the tile name.
- **Routing** (module `Routing`). Each chunk of the splitter gets the scan id
  and is clipped to the box; both ends are inclusive. The origin of the clipped
  chunk is its floor-snapped minimum corner, and the tile at that origin is
  looked up.
- **Fragment store** (module `Fragments`). The class `FragmentStore` holds the
  output directory's `.xyz` fragments and `.ply` outputs.
  - Fragments are append-only files keyed by tile, or by tile and scan.
  - The merge step concatenates the fragments a glob lists, writes the `.ply`
    output and deletes the fragments.
  - Concurrent workers are modelled as an arbitrary sequential order of
    atomic appends.
- **Scan worker** (module `ScanWorker`). `tile_data` is modelled step by step:
  - choose the latest capture;
  - parse the scan id;
  - look up the rotation matrix;
  - route every chunk, appending to the store.

  The scan phase runs the workers one after another.
- **Execution time** (module `Duration`). `calculate_execution_time` splits
  the elapsed seconds with `divmod` and prints `HH:MM:SS`. It is modelled once
  for the three identical copies.
- **Status table** (module `Status`). `update_status.py` keeps a JSON table
  from project to a list of step records. The module models:
  - the `Step` dataclass (a class) and `calculate_duration`;
  - the upsert keyed by step name, saving with a stable sort by name, and
    clearing;
  - the step name and status derived from a log-file name.
- **QSM inputs** (module `QsmInputs`). `generate_inputs` walks 125 parameter
  combinations per tree with a counter. The counter gives each combination its
  script file number and its block of model indices.
- **Hex colours** (module `HexColour`). `hexitriplet` prints `#` followed by
  two upper-case hex digits per component.
- **Output names** (module `Naming`). These are the tile name in the tile
  index and the down-sampled file name.
- **Shared modules.** `Text` models Python's string operations: `in`,
  `replace`, `split`, `basename`, `os.path.join` and string order. `Numerals`
  models `str`, `zfill`, `int` and the `02`/`02X` formats. `Wrappers` holds
  `Option` and `Result`.

Coordinates and the tile size are `real`. numpy's `b // tile * tile` is
`(b / tile).Floor` times `tile`. The `.astype(int)` casts are an explicit
truncation toward zero (`Numerals.Trunc`). A JSON `null` date is the empty
string, because the source treats both as false.

## Model

| member | source | states |
|---|---|---|
| Extent.SelectExtentAsWritten | scripts/python/rxp2ply.py:294-327 | The box-and-geometry conflict raises first. As written, any explicit box raises, because `Polygon` is not defined (only `Point` is imported at line 15). |
| Extent.ExplicitBoxRaisesAsWritten | scripts/python/rxp2ply.py:296-297 | The box `[0, 0, 20, 20]` alone cannot be selected as written. |
| Extent.SelectExtent | scripts/python/rxp2ply.py:294-327 | An error exactly when both a box and a geometry are given. Otherwise the mode is the first requested option in the order box, geometry, rotate, hull, or else the envelope. A box mode carries the four given bounds; a geometry mode carries the given path. |
| Extent.SelectorsAgreeWithoutBox | scripts/python/rxp2ply.py:307-327 | Without an explicit box, the as-written and intended selectors give the same result. |
| Extent.ExtentBounds | scripts/python/rxp2ply.py:297-308 | A box polygon's bounds contain its four corner values, and each bound is one of its two given coordinates, so the bounds are exactly their minimum and maximum. A geometry mode keeps the geometry's own bounds. |
| Extent.Snap | scripts/python/rxp2ply.py:328 | A snapped bound is a multiple of the tile and lies in `(b - tile, b]`. |
| Extent.SnapIdempotent | scripts/python/rxp2ply.py:328 | Snapping twice is snapping once. |
| Extent.SnapBox | scripts/python/rxp2ply.py:328 | All four bounds are snapped: each is on the lattice and within one tile below its original. |
| Extent.MultipleOnLattice | scripts/python/rxp2ply.py:328 | Integer multiples of the tile are lattice points. |
| Extent.FloorBracket | scripts/python/rxp2ply.py:328 | `floor(b / tile) * tile <= b < floor(b / tile) * tile + tile`. |
| TileGrid.AxisCountSpec | scripts/python/rxp2ply.py:339-341 | `np.arange(lo, hi, tile)` has an i-th value exactly when `lo + i * tile < hi`, so the stop value is strict. |
| TileGrid.GridRows | scripts/python/rxp2ply.py:339-342 | The flattened meshgrid has rows × columns cells. |
| TileGrid.Candidates | scripts/python/rxp2ply.py:339-342 | The candidates number `Rows * Columns` of the snapped box. |
| TileGrid.GridIndex | scripts/python/rxp2ply.py:339-342 | Cell `(i, j)` is at flat index `j * nx + i`: y outer, x inner. |
| TileGrid.GridCell | scripts/python/rxp2ply.py:339-342 | Every flat index is some lattice cell `(i, j)`. |
| TileGrid.CandidateAt | scripts/python/rxp2ply.py:339-342 | Lattice cell `(i, j)` of the box is candidate `j * Columns + i`. |
| TileGrid.Kept | scripts/python/rxp2ply.py:344 | Every kept position from `from` on indexes a candidate. |
| TileGrid.KeptInside | scripts/python/rxp2ply.py:344 | Every kept position is that of a candidate the polygon contains. |
| TileGrid.KeptIncreasing | scripts/python/rxp2ply.py:344 | The kept positions are strictly increasing, so candidate order is kept. |
| TileGrid.KeptComplete | scripts/python/rxp2ply.py:344 | Every candidate the polygon contains has its position kept. |
| TileGrid.Retain | scripts/python/rxp2ply.py:344 | Every retained origin is inside the polygon. |
| TileGrid.Number | scripts/python/rxp2ply.py:346 | Row `k` gets id `k` and keeps its origin. |
| TileGrid.TileTable | scripts/python/rxp2ply.py:339-347 | Tile `k` has id `k` and an origin inside the polygon. |
| TileGrid.TileTableOrder | scripts/python/rxp2ply.py:339-347 | Table order is candidate order: tile `k` is the candidate at a strictly increasing position. |
| TileGrid.TileOnLattice | scripts/python/rxp2ply.py:339-347 | Every tile origin is the integer cast of a lattice point of the box. |
| TileGrid.TileTableComplete | scripts/python/rxp2ply.py:339-347 | Every lattice cell the polygon contains is a tile. |
| TileGrid.FourCandidates | scripts/python/rxp2ply.py:339-342 | Box `[0, 0, 20, 20]` with tile 10 gives candidates `(0,0), (10,0), (0,10), (10,10)`. |
| TileGrid.KeptAll | scripts/python/rxp2ply.py:344 | A polygon containing every candidate keeps exactly the positions `from, from + 1, …` up to the candidate count. |
| TileGrid.RetainAll | scripts/python/rxp2ply.py:344 | A polygon containing every candidate retains all of them in order. |
| TileGrid.FourTileScenario | scripts/python/rxp2ply.py:339-347 | On that box, a polygon holding the four origins gives ids 0-3 at `(0,0), (10,0), (0,10), (10,10)`. |
| TileGrid.TruncOfMultiplesDiffers | scripts/python/rxp2ply.py:342 | With a tile of at least 1, distinct multiples stay distinct after the int cast. |
| TileGrid.AxisPointsDiffer | scripts/python/rxp2ply.py:342 | Distinct axis values of a snapped axis stay distinct after the cast. |
| TileGrid.LatticePointsDiffer | scripts/python/rxp2ply.py:342 | Distinct cells of a snapped box have distinct integer origins. |
| TileGrid.SnappedTableHasUniqueOrigins | scripts/python/rxp2ply.py:339-347 | On a snapped box with tile ≥ 1, no two tiles of the modelled table share an origin, so the lookup at line 118 cannot find two rows. The table is built with one membership predicate, that is, a single-feature extent. |
| TileGrid.PadWidth | scripts/python/rxp2ply.py:348-350 | The pad width is at least 3 and at least the digit count of the tile count, and it is one of the two: `max(3, len(str(count)))`. |
| TileGrid.TileName | scripts/python/rxp2ply.py:118 | `str(id).zfill(n)`. Its length, digits and read-back are pinned by TileNameRoundTrip. |
| TileGrid.TileNameRoundTrip | scripts/python/rxp2ply.py:118 | Below the tile count, a zero-filled id has exactly the pad width, is all digits, and parses back to the id. |
| TileGrid.TileNamesDistinct | scripts/python/rxp2ply.py:118 | Distinct ids get distinct names. |
| Routing.Tag | scripts/python/rxp2ply.py:103-106 | One record per point, in order; every record keeps all seven of its point's fields and carries the scan id. |
| Routing.Clip | scripts/python/rxp2ply.py:109 | The kept records are exactly the records inside the box, both ends inclusive. |
| Routing.ClipCounts | scripts/python/rxp2ply.py:109 | Every in-box record is kept as often as it occurs, and no other record is kept. |
| Routing.MinX | scripts/python/rxp2ply.py:114 | The minimum x is attained and is below every x. |
| Routing.MinY | scripts/python/rxp2ply.py:114 | The minimum y is attained and is below every y. |
| Routing.ChunkOrigin | scripts/python/rxp2ply.py:114 | The minimum x and y snapped down to the lattice and cast to int. What it gives is pinned by ChunkInCell. |
| Routing.Matching | scripts/python/rxp2ply.py:115 | The selected rows are exactly the tiles at the origin. |
| Routing.Find | scripts/python/rxp2ply.py:115-119 | No tile exactly when no row has the origin. The lookup raises exactly when two or more rows have the origin. A found tile is the only row at that origin. |
| Routing.NoMatch | scripts/python/rxp2ply.py:115-117 | A table without the origin selects nothing. |
| Routing.AtMostOneMatch | scripts/python/rxp2ply.py:115-119 | With unique origins at most one row is selected. |
| Routing.FindUnambiguous | scripts/python/rxp2ply.py:118-119 | With unique origins the lookup never raises. |
| Routing.RouteChunk | scripts/python/rxp2ply.py:103-119 | Skipped exactly when the clipped chunk is empty. Unassigned exactly when no tile has its origin. Raised exactly when the chunk is non-empty and two or more rows have its origin. A routed chunk carries the clipped records, all in the box with the scan id, to a tile at their floor-snapped origin. |
| Routing.RoutingNeverRaises | scripts/python/rxp2ply.py:118-119 | On a table with unique origins, routing never raises. |
| Routing.FloorInCell | scripts/python/rxp2ply.py:114 | A value in `[p * tile, (p+1) * tile)` floors to `p`. |
| Routing.DivBetween | scripts/python/rxp2ply.py:114 | A value between `lo * tile` and `hi * tile` divides by a positive tile to a value in `[lo, hi)`. |
| Routing.ChunkInCell | scripts/python/rxp2ply.py:114 | A chunk inside cell `(p, q)` gets that cell's origin. |
| Routing.RoutesToTileAtOrigin | scripts/python/rxp2ply.py:109-119 | A non-empty clipped chunk whose origin is tile `k`'s goes to tile `k` with all its clipped records. |
| Routing.SinglePointKept | scripts/python/rxp2ply.py:109 | A point inside the box survives clipping. |
| Routing.PointRoutesToCell | scripts/python/rxp2ply.py:109-119 | A one-point chunk inside the box and inside a cell goes to that cell's tile. |
| Routing.FourTileRouting | scripts/python/rxp2ply.py:109-119 | On the four-tile table, a point at (5, 5) goes to tile 0 and one at (15, 15) to tile 3. |
| Fragments.Appended | scripts/python/rxp2ply.py:122-128 | An append opens the file if needed. It extends that file by the records and leaves every other file as it was. |
| Fragments.AppendGrowsOneFile | scripts/python/rxp2ply.py:122-128 | The appended file grows by exactly the record count and keeps its prefix. Every other file is unchanged. |
| Fragments.PlotPrefix | scripts/python/rxp2ply.py:280-281 | A non-empty plot code gets one trailing underscore; an empty one stays empty. |
| Fragments.FragmentName | scripts/python/rxp2ply.py:124-127 | `{plot_code}{tile_n}.{sp}.xyz` in per-scan mode, `{plot_code}{tile_n}.xyz` otherwise. Pinned by FragmentNameInjective. |
| Fragments.AsWrittenStem | scripts/python/rxp2ply.py:156 | The merge's stem as written: the zero-filled id alone. Shown short by AsWrittenGlobMissesFragment. |
| Fragments.FragmentStem | scripts/python/rxp2ply.py:124 | The intended stem: the plot prefix and the zero-filled id. Pinned by StemFindsOwnFragments and StemSkipsOtherTiles. |
| Fragments.FragmentNameInjective | scripts/python/rxp2ply.py:124-127 | Two fragment names of one run are equal only for the same tile, and the same scan in per-scan mode. |
| Fragments.StemsAgreeWithoutPlotCode | scripts/python/rxp2ply.py:156-166 | With no plot code, the as-written and intended stems agree. |
| Fragments.AsWrittenGlobMissesFragment | scripts/python/rxp2ply.py:156-166 | With plot code `plot`, fragment `plot_000.1.xyz` escapes the as-written glob of tile 0. It matches the intended one. The fragment is named as at line 124. |
| Fragments.StemFindsOwnFragments | scripts/python/rxp2ply.py:124 | Every per-scan fragment of a tile matches the glob over that tile's stem. The glob is the one at line 166. |
| Fragments.StemSkipsOtherTiles | scripts/python/rxp2ply.py:124-127 | No fragment of another tile matches the glob over a tile's stem. The glob is the one at line 166. |
| Fragments.ConcatMapAppend | scripts/python/rxp2ply.py:166-173 | Concatenating over two listings is the concatenation of the two. |
| Fragments.ConcatMapPermutation | scripts/python/rxp2ply.py:166-173 | Reordering the pieces only permutes the concatenated records. |
| Fragments.WithoutMatches | scripts/python/rxp2ply.py:174 | Exactly the files the glob matches are removed; the others are kept as they were. |
| Fragments.ListingsArePermutations | scripts/python/rxp2ply.py:166 | Two listings of the same glob are permutations of each other. |
| Fragments.MergeOrderIrrelevant | scripts/python/rxp2ply.py:166-173 | The merged records, as a multiset, do not depend on the listing order. |
| Fragments.AppendsPerFile | scripts/python/rxp2ply.py:122-128 | After any sequence of appends, each file holds its old records followed by its own appends in order. |
| Fragments.ApplyAppends | scripts/python/rxp2ply.py:122-128 | Locked appends applied one after another. Pinned by AppendsPerFile and AppendOrderIrrelevant. |
| Fragments.ApplyAppendsCons | scripts/python/rxp2ply.py:122-128 | Applying `[op] + ops` is applying `op`, then `ops`. |
| Fragments.AppendAdds | scripts/python/rxp2ply.py:122-128 | One append adds to a file exactly its records when it targets that file, and nothing otherwise. |
| Fragments.OtherAppendsAddNothing | scripts/python/rxp2ply.py:122-128 | Appends to other files add nothing to a file. |
| Fragments.AppendOrderIrrelevant | scripts/python/rxp2ply.py:122-128 | Any interleaving of the same appends gives each file the same multiset of records. |
| Fragments.FragmentStore.constructor | scripts/python/rxp2ply.py:241 | The store starts with whatever fragments and outputs the output directory already holds; nothing clears it. |
| Fragments.FragmentStore.Append | scripts/python/rxp2ply.py:122-128 | The fragments become `Appended(old fragments, name, recs)` and the outputs are unchanged. |
| Fragments.FragmentStore.MergeScanFragments | scripts/python/rxp2ply.py:164-178 | Returns the listed fragments concatenated in listing order. Every matched fragment is deleted, so none matching the stem is left. A `.ply` output is written only when the concatenation is non-empty. |
| Fragments.RemovedListing | scripts/python/rxp2ply.py:166-174 | Deleting every file of a complete glob listing leaves the directory without the matches. |
| Fragments.FragmentStore.ConvertFragment | scripts/python/rxp2ply.py:200-204 | The fragment becomes the output with `.xyz` replaced by `.ply` and is deleted. |
| ScanWorker.RemovePrefix | scripts/python/rxp2ply.py:51 | Removing the prefix from `prefix + digits + suffix` leaves `digits + suffix`. |
| ScanWorker.RemoveScnpos | scripts/python/rxp2ply.py:51 | Removing `.SCNPOS` leaves the digits. |
| ScanWorker.ParseZeroFilled | scripts/python/rxp2ply.py:51 | Zero-filled digits parse back to their number. |
| ScanWorker.ScanIdOfDirectoryName | scripts/python/rxp2ply.py:51 | `prefix + digits [+ .SCNPOS]` has scan id equal to the digits' value. |
| ScanWorker.DefaultPrefixScanId | scripts/python/rxp2ply.py:51 | `ScanPos001.SCNPOS` with prefix `ScanPos` is scan 1. |
| ScanWorker.ScanId | scripts/python/rxp2ply.py:51 | `int(scan.replace(prefix, '').replace('.SCNPOS', ''))`, or None where `int` raises. Pinned by ScanIdOfDirectoryName. |
| ScanWorker.Captures | scripts/python/rxp2ply.py:36-42 | The captures are exactly the entries matching the capture glob. |
| ScanWorker.Latest | scripts/python/rxp2ply.py:36-42 | `sorted(...)[-1]` is a listed name that is at least every name. |
| ScanWorker.CommonPrefixOrder | scripts/python/rxp2ply.py:36-42 | Sorting paths of one directory sorts their names. |
| ScanWorker.ChosenCapture | scripts/python/rxp2ply.py:34-49 | None exactly when no entry matches the glob. Otherwise, the greatest matching entry. |
| ScanWorker.RouteAll | scripts/python/rxp2ply.py:97-119 | The chunk loop either finishes or fails on a raising lookup; RouteAllFailsIffRaise says when. |
| ScanWorker.ChunkRaises | scripts/python/rxp2ply.py:115-119 | The lookup for one chunk raises. |
| ScanWorker.SomeChunkRaises | scripts/python/rxp2ply.py:97-119 | Some chunk's lookup raises. |
| ScanWorker.RouteAllFailsIffRaise | scripts/python/rxp2ply.py:97-119 | The chunk loop fails exactly when some chunk's lookup raises. |
| ScanWorker.OutcomeStep | scripts/python/rxp2ply.py:97-119 | A raising first chunk fails the loop; otherwise the loop ends as the rest does. |
| ScanWorker.SomeChunkRaisesCons | scripts/python/rxp2ply.py:97-119 | Some chunk raises exactly when the first does or one of the rest does. |
| ScanWorker.WorkerPlan | scripts/python/rxp2ply.py:32-128 | No capture returns early, a bad scan id fails, no matrix returns early, and otherwise the chunk loop runs. Pinned by EarlyReturnWritesNothing and TileData. |
| ScanWorker.RouteAllStep | scripts/python/rxp2ply.py:97-128 | The plan from chunk `i` on is the routing of chunk `i` (fail, skip or one append) followed by the plan of the rest. |
| ScanWorker.ChunkStep | scripts/python/rxp2ply.py:97-128 | A raising chunk fails the plan with no appends; any other chunk keeps the rest's outcome, and a routed one applies its append before the rest's. |
| ScanWorker.RouteOne | scripts/python/rxp2ply.py:103-128 | One chunk reports a raise exactly when its lookup raises. A routed chunk appends its records to its tile's fragment; otherwise nothing changes. |
| ScanWorker.RouteChunks | scripts/python/rxp2ply.py:97-128 | The chunk loop returns the plan's outcome and leaves the fragments as the old ones after the plan's appends. |
| ScanWorker.EarlyReturnWritesNothing | scripts/python/rxp2ply.py:34-67 | A worker that returns early, or fails on the scan id, appends nothing. It returns for want of a capture exactly when no capture matches. |
| ScanWorker.RoutedAppendsAreWellRouted | scripts/python/rxp2ply.py:109-128 | Every append carries non-empty in-box records of this scan to the fragment of the tile at their origin. |
| ScanWorker.UniqueTableFinishes | scripts/python/rxp2ply.py:97-128 | On a table with unique origins the chunk loop runs to the end. |
| ScanWorker.AppendTargetsRow | scripts/python/rxp2ply.py:115-128 | Every append goes to the fragment of some row of the table. |
| ScanWorker.SharedFileMeansSameScan | scripts/python/rxp2ply.py:123-125 | In per-scan mode, two workers append to the same file only if they have the same scan id. |
| ScanWorker.TileData | scripts/python/rxp2ply.py:21-150 | The worker chooses the latest capture. Its outcome is the plan's outcome. The store's fragments are the old ones after the plan's appends; the outputs are unchanged. |
| ScanWorker.OutcomesPerScan | scripts/python/rxp2ply.py:377-381 | One outcome per scan, each that scan's worker outcome. |
| ScanWorker.RunScans | scripts/python/rxp2ply.py:377-381 | Running the workers one after another gives every outcome and applies all their appends in order. |
| ScanWorker.ScanStep | scripts/python/rxp2ply.py:377-381 | One more worker adds its own outcome at the end and applies its own appends after the earlier ones. |
| ScanWorker.AllAppendsStep | scripts/python/rxp2ply.py:377-381 | One more scan adds its own appends at the end. |
| ScanWorker.ApplyAppendsConcat | scripts/python/rxp2ply.py:122-128 | Applying `a + b` is applying `a`, then `b`. |
| ScanWorker.ScanOrderIrrelevant | scripts/python/rxp2ply.py:372-381 | Whatever order the workers run in, each fragment ends with the same multiset of records. |
| Duration.Split | scripts/python/rxp2ply.py:222-224 | `hours * 3600 + minutes * 60 + seconds` is the total. Minutes and seconds lie in `[0, 60)`. Hours are non-negative exactly when the total is. |
| Duration.Show | scripts/python/rxp2ply.py:225 | `f'{hours:02}:{minutes:02}:{seconds:02}'`. Pinned by ShowFields. |
| Duration.ExecutionTime | scripts/python/rxp2ply.py:217-227 | `calculate_execution_time`, also at tile_index.py:49-59 and downsample.py:45-55. Pinned by ExecutionTimeFields and LongRunsWidenHours. |
| Duration.TwoDigitField | scripts/python/tile_index.py:57 | A field below 60 prints as two digits that read back as the field. |
| Duration.ExecutionTimeFields | scripts/python/tile_index.py:49-59 | For a non-negative duration the text is `H…:MM:SS`. The fields read back as quotient and remainders that recombine to the truncated seconds. |
| Duration.SplitFields | scripts/python/tile_index.py:49-59 | A non-negative count of seconds prints as text whose three fields read back and recombine to the count. |
| Duration.ShowFields | scripts/python/tile_index.py:57 | A clock with non-negative hours and minutes and seconds below 60 prints as `H…:MM:SS` with each field reading back. |
| Duration.LongRunsWidenHours | scripts/python/downsample.py:45-55 | A hundred hours or more widens the text to at least 9 characters. |
| Status.WithDuration | scripts/python/update_status.py:25-27 | Only when both dates are non-empty is the duration set, to the elapsed time between them. Otherwise the record is unchanged. |
| Status.Step.constructor | scripts/python/update_status.py:17-23 | A new step has the given fields and an empty duration. |
| Status.Step.CalculateDuration | scripts/python/update_status.py:25-27 | The step's record becomes `WithDuration` of its old record. |
| Status.FirstNamed | scripts/python/update_status.py:99-100 | The loop stops at the first entry with the step's name, or at the end. |
| Status.FirstNamedIs | scripts/python/update_status.py:99-100 | The first matching index is unique. |
| Status.Stored | scripts/python/update_status.py:99-114 | The record the update stores for a step: the new step, with the old start date and a recomputed duration when it is "done" and present, or with its duration when it is new. Pinned by ExistingStepReplaced and CompletionKeepsStart. |
| Status.Upserted | scripts/python/update_status.py:99-114 | The project's list after the for-else. Pinned by NewStepAppended and ExistingStepReplaced. |
| Status.Updated | scripts/python/update_status.py:96-114 | The table after the upsert. Pinned by UpdateTouchesOnlyProject and UnknownProjectCreated. |
| Status.UpdateTouchesOnlyProject | scripts/python/update_status.py:96-97 | An update adds the project if needed and changes no other project. |
| Status.UnknownProjectCreated | scripts/python/update_status.py:97-114 | An unknown project is created holding just the new step, with its duration. |
| Status.NewStepAppended | scripts/python/update_status.py:112-114 | A step whose name is absent is appended as exactly one new entry. |
| Status.ExistingStepReplaced | scripts/python/update_status.py:99-111 | The first same-named entry is replaced; the length and every other entry are unchanged. Unless the status is "done", the entry becomes exactly the new step. |
| Status.CompletionKeepsStart | scripts/python/update_status.py:105-110 | A "done" step keeps the stored start date. Its duration is recomputed from that start to the new finish when both are non-empty. |
| Status.UpsertKeepsNamesUnique | scripts/python/update_status.py:99-114 | Upserting keeps names unique, and the step's name is then present. |
| Status.InsertPermutes | scripts/python/update_status.py:43 | An insertion adds exactly the record. |
| Status.InsertSorted | scripts/python/update_status.py:43 | Inserting into a sorted list keeps it sorted. |
| Status.InsertAboveBound | scripts/python/update_status.py:43 | Inserting a record at least a bound into a list at least that bound keeps every name at least the bound. |
| Status.SortPermutes | scripts/python/update_status.py:43 | The sorted list is a permutation of the list. |
| Status.SortSorts | scripts/python/update_status.py:43 | The sorted list is in non-decreasing name order. |
| Status.InsertNamed | scripts/python/update_status.py:43 | An insertion places the record ahead of the others with its name. |
| Status.SortStable | scripts/python/update_status.py:43 | The sort is stable: records of one name keep their relative order. |
| Status.SortByName | scripts/python/update_status.py:43 | `sort(key=name)`. Pinned by SortPermutes, SortSorts and SortStable. |
| Status.SortedTable | scripts/python/update_status.py:41-45 | Saving keeps the same projects. |
| Status.SavedTableSorted | scripts/python/update_status.py:41-45 | Every saved list is sorted by name and is a permutation of the unsaved one. |
| Status.SortKeepsNamesUnique | scripts/python/update_status.py:43 | Sorting keeps unique names unique. |
| Status.NamedCount | scripts/python/update_status.py:43 | Two positions with one name give at least two records of that name. |
| Status.NamedHas | scripts/python/update_status.py:43 | A position with a name gives at least one record of that name. |
| Status.NamedAtMostOne | scripts/python/update_status.py:43 | With unique names there is at most one record per name. |
| Status.NamedNone | scripts/python/update_status.py:43 | A name not present has no records. |
| Status.StatusFile.constructor | scripts/python/update_status.py:30-38 | The file holds the given contents. |
| Status.StatusFile.Load | scripts/python/update_status.py:30-38 | A missing or undecodable file loads as the empty table. |
| Status.StatusFile.Save | scripts/python/update_status.py:41-45 | The file then holds the table with every list sorted. |
| Status.StatusFile.ClearProjectSteps | scripts/python/update_status.py:82-92 | An existing project's list is emptied and the table saved. Otherwise the file is unchanged. |
| Status.StatusFile.UpdateStatus | scripts/python/update_status.py:95-116 | The file holds the loaded table with the step upserted, then sorted. The `Step` object ends as the record stored for it. |
| Status.StepStatusIffDone | scripts/python/update_status.py:166 | The status is "done" exactly when "DONE" occurs in the name, and "running" otherwise. |
| Status.StepStatus | scripts/python/update_status.py:166 | "done" or "running" by the `DONE` test. Pinned by StepStatusIffDone. |
| Status.StepName | scripts/python/update_status.py:167-174 | The two `replace` chains. Pinned by StepNameHasNoUnderscore. |
| Status.LogStep | scripts/python/update_status.py:166-210 | The step a log file yields, or None when it is skipped. Pinned by LogStepRecorded. |
| Status.StepNameHasNoUnderscore | scripts/python/update_status.py:167-174 | A derived step name never contains `_`. |
| Status.LogStepRecorded | scripts/python/update_status.py:166-210 | Nothing is recorded exactly when the project or the name is empty. A recorded step has a non-empty name without `_`, the log's dates, and status "done" exactly when the name contains "DONE". |
| QsmInputs.FileType | scripts/python/generate_inputs.updated.py:22 | The file type holds no `.` and no `/`. |
| QsmInputs.FileTypeIsExtension | scripts/python/generate_inputs.updated.py:22 | For `dir/front.ext`, the file type is `ext`. |
| QsmInputs.CloudLines | scripts/python/generate_inputs.updated.py:64-71 | Types other than ply and txt emit no cloud lines. |
| QsmInputs.CloudLinesByType | scripts/python/generate_inputs.updated.py:64-71 | A ply tree emits the label-3 `read_ply` lines, a txt tree the `dlmread` lines, and any other type nothing. |
| QsmInputs.ScriptNamesDistinct | scripts/python/generate_inputs.updated.py:34 | Different file numbers give different script names. |
| QsmInputs.ScriptName | scripts/python/generate_inputs.updated.py:34 | `{name}_{fn}.m`. Pinned by ScriptNamesDistinct. |
| QsmInputs.FileNumber | scripts/python/generate_inputs.updated.py:33 | `int(0 if i == 0 else i / n_models)`. Pinned by FileNumberOfCounter. |
| QsmInputs.Expected | scripts/python/generate_inputs.updated.py:29-87 | The script combination `q` should write. Pinned by TreeScripts, ScriptFilesDistinct and ZeroModelsOverwrite. |
| QsmInputs.FileNumberOfCounter | scripts/python/generate_inputs.updated.py:33-87 | After `q` combinations the counter `q * n` gives file number `q`, or 0 when `n` is 0. |
| QsmInputs.Scripts | scripts/python/generate_inputs.updated.py:29-31 | A tree gets 125 scripts. |
| QsmInputs.CombinationStep | scripts/python/generate_inputs.updated.py:29-87 | Combination `(a, b, c)` is script `25a + 5b + c`, selected by the counter's value there. |
| QsmInputs.BaseFiveDigits | scripts/python/generate_inputs.updated.py:29-31 | The counter `25a + 5b + c` gives back `a`, `b` and `c` as its base-5 digits. |
| QsmInputs.TreeScripts | scripts/python/generate_inputs.updated.py:27-87 | The triple loop writes exactly the 125 expected scripts in loop order. |
| QsmInputs.ScriptFilesDistinct | scripts/python/generate_inputs.updated.py:33-34 | With `n ≠ 0`, combination `q` goes to `name_q.m` and no two combinations share a file. |
| QsmInputs.ZeroModelsOverwrite | scripts/python/generate_inputs.updated.py:33-73 | With `n = 0` every combination overwrites `name_0.m`, with the empty loop `0:-1`. |
| QsmInputs.ModelBlocksAdjacent | scripts/python/generate_inputs.updated.py:73-87 | The blocks start at 0, end at `125n - 1`, and each starts right after the previous one. |
| QsmInputs.ModelBlocksDisjoint | scripts/python/generate_inputs.updated.py:73-87 | With `n ≥ 1`, blocks of different combinations do not overlap. |
| QsmInputs.ModelBlocksCover | scripts/python/generate_inputs.updated.py:73-87 | With `n ≥ 1`, model index `m < 125n` lies in the block of combination `m / n`. |
| QsmInputs.GenerateTree | scripts/python/generate_inputs.updated.py:20-87 | One tree gives its sub-directory, then its 125 scripts. |
| QsmInputs.TreeEvents | scripts/python/generate_inputs.updated.py:20-87 | The sub-directory, then the 125 scripts of one tree. Pinned by GenerateTree. |
| QsmInputs.AllEvents | scripts/python/generate_inputs.updated.py:16-87 | Each tree contributes 126 events. |
| QsmInputs.FirstMissingFromSpec | scripts/python/generate_inputs.updated.py:16-18 | Every tree from the start position up to the result is present, and the tree at the result, if any, is missing. |
| QsmInputs.FirstMissingIs | scripts/python/generate_inputs.updated.py:16-18 | A position with every earlier tree present and no present tree there is the first missing one. |
| QsmInputs.GenerateInputs | scripts/python/generate_inputs.updated.py:8-90 | The events are exactly those of the trees before the first missing one. That tree raises `… does not exist!` before any of its own events. |
| QsmInputs.AllEventsStep | scripts/python/generate_inputs.updated.py:16-87 | One more tree appends its own events. |
| QsmInputs.GenerateNext | scripts/python/generate_inputs.updated.py:16-87 | Processing tree `t` extends the events of the trees before it to those of the trees up to `t`. |
| HexColour.Components | scripts/python/tree_figs.py:14 | At least two characters per component. |
| HexColour.HexTriplet | scripts/python/tree_figs.py:13-14 | The text begins with `#`. |
| HexColour.ByteField | scripts/python/tree_figs.py:14 | A byte prints as two hex digits that read back as it. |
| HexColour.ComponentsLayout | scripts/python/tree_figs.py:14 | Byte components give exactly two digits each, in order, each reading back as its component. |
| HexColour.HexTripletLayout | scripts/python/tree_figs.py:14 | For byte components the length is `1 + 2·count`, and each 2-digit group reads back as its component. |
| HexColour.WideComponentLengthens | scripts/python/tree_figs.py:14 | A component of 256 or more makes the triplet longer than `1 + 2·count`. |
| HexColour.WideComponentsLengthen | scripts/python/tree_figs.py:14 | A component of 256 or more makes the digits longer than two per component. |
| HexColour.Doubled | scripts/python/tree_figs.py:117 | `c * 2` doubles every component. |
| HexColour.ScriptColoursHaveSevenCharacters | scripts/python/tree_figs.py:115-117 | Components from 0..124, and their doubles, both encode to 7 characters. |
| Naming.TileIndexNameIsStem | scripts/python/tile_index.py:33 | The tile name of `dir/stem.rest` is `stem` and contains no `.`. |
| Naming.TileIndexName | scripts/python/tile_index.py:33 | `os.path.split(ply)[1].split('.')[0]`. Pinned by TileIndexNameIsStem. |
| Naming.DownsampleIgnoresInputDirectory | scripts/python/downsample.py:29 | Inputs with the same file name in any directories share one output path. |
| Naming.AfterLastWhole | scripts/python/downsample.py:29 | A name without `/` is its own base name. |
| Naming.RenamePly | scripts/python/downsample.py:29 | In `stem.ply` the one `.ply` becomes `.downsample.ply`. |
| Naming.DownsampleOfPly | scripts/python/downsample.py:29 | `dir/stem.ply` is written to the output directory as `stem.downsample.ply`; with an output directory not ending in `/`, the path is `odir/stem.downsample.ply`. |
| Naming.DownsampleOutput | scripts/python/downsample.py:29 | The writer's file name. Pinned by DownsampleIgnoresInputDirectory and DownsampleOfPly. |
| Text.ContainsIffOccurs | scripts/python/update_status.py:166 | `pat in s` exactly when `pat` occurs at some position. |
| Text.ReplaceRemovesChar | scripts/python/update_status.py:168-173 | Replacing a character by text without it removes it everywhere. |
| Text.ReplaceKeepsAbsent | scripts/python/update_status.py:168-173 | Replacing never introduces a character absent from the text and the replacement. |
| Text.ReplaceAbsent | scripts/python/rxp2ply.py:51 | Text without the pattern is unchanged. |
| Text.ReplaceAtStart | scripts/python/downsample.py:29 | An occurrence at the start is replaced and the scan continues after it. |
| Text.ReplaceSkips | scripts/python/downsample.py:29 | A stretch without the pattern's first character is copied unchanged. |
| Text.ReplaceAll | scripts/python/update_status.py:168-173 | Python's `str.replace`, left to right and non-overlapping. Pinned by ReplaceAtStart, ReplaceSkips, ReplaceAbsent and ReplaceRemovesChar. |
| Text.RemoveAll | scripts/python/rxp2ply.py:51 | `replace(pat, '')`. Pinned by RemovePrefix and RemoveScnpos. |
| Text.BeforeFirst | scripts/python/generate_inputs.updated.py:20 | `split(c)[0]` is a prefix without `c`, followed by `c` if shorter. |
| Text.AfterLast | scripts/python/generate_inputs.updated.py:22 | `split(c)[-1]` is a suffix without `c`, preceded by `c` if shorter. |
| Text.BeforeFirstOf | scripts/python/generate_inputs.updated.py:20 | The text before the first `c` of `a + c + b`, with no `c` in `a`, is `a`. |
| Text.AfterLastOf | scripts/python/generate_inputs.updated.py:22 | The text after the last `c` of `a + c + b`, with no `c` in `b`, is `b`. |
| Text.Stem | scripts/python/generate_inputs.updated.py:20 | The stem holds no `.` and no `/`. |
| Text.StemOf | scripts/python/tile_index.py:33 | The stem of `dir/stem.rest` is `stem`. |
| Text.Basename | scripts/python/downsample.py:29 | `os.path.split(path)[1]`. Pinned by AfterLast. |
| Text.PathJoin | scripts/python/downsample.py:29 | `os.path.join` of two parts on POSIX. Pinned by PathJoinAbsolute and PathJoinRelative. |
| Text.PathJoinAbsolute | scripts/python/downsample.py:29 | An absolute name replaces the directory. |
| Text.PathJoinRelative | scripts/python/downsample.py:29 | A relative name follows the directory, with exactly one `/` between them unless the directory is empty or ends in `/`. |
| Text.LexLe | scripts/python/update_status.py:43 | Python's code-point string order. Pinned by LexLeReflexive, LexLeTotal and LexLeTransitive. |
| Text.LexLeReflexive | scripts/python/update_status.py:43 | String order is reflexive. |
| Text.LexLeTotal | scripts/python/update_status.py:43 | String order is total. |
| Text.LexLeTransitive | scripts/python/update_status.py:43 | String order is transitive. |
| Numerals.Trunc | scripts/python/generate_inputs.updated.py:33 | `int(x)` truncates toward zero. |
| Numerals.ValueOfDigits | scripts/python/rxp2ply.py:348 | The digits of `n` denote `n`. |
| Numerals.ValueOfZeroFilled | scripts/python/rxp2ply.py:118 | Leading zeros do not change the value. |
| Numerals.DigitCount | scripts/python/rxp2ply.py:348 | `n` has at most `w` digits exactly when `n < base^w`. |
| Numerals.DigitCountMonotone | scripts/python/rxp2ply.py:348 | A larger number has at least as many digits. |
| Numerals.Render | scripts/python/tree_figs.py:14 | One character per digit. |
| Numerals.ZeroFill | scripts/python/rxp2ply.py:118 | `zfill` gives the width, unless the text is longer. |
| Numerals.ZeroFillDigits | scripts/python/rxp2ply.py:118 | A zero-filled text is zeros followed by the digits. |
| Numerals.FormatParses | scripts/python/rxp2ply.py:118 | A formatted non-negative number parses back to itself. |
| Numerals.FormatIsDigits | scripts/python/rxp2ply.py:118 | A formatted non-negative number is all digits. |
| Numerals.FormatLength | scripts/python/tree_figs.py:14 | A formatted non-negative number has the width, unless its digits need more. |
| Numerals.Format | scripts/python/rxp2ply.py:118 | `zfill` and `{v:02}`-style formatting in a base. Pinned by FormatParses, FormatIsDigits and FormatLength. |
| Numerals.DecimalParses | scripts/python/rxp2ply.py:51 | `int(str(v)) == v`, negative numbers included. |
| Numerals.NegativeDecimalParses | scripts/python/rxp2ply.py:51 | `int(str(v)) == v` for a negative `v`. |
| Numerals.ParseInt | scripts/python/rxp2ply.py:51 | `int()` of an optional sign and decimal digits, or None. Pinned by DecimalParses and ParseZeroFilled. |

## Left out

- **pdal pipelines.** The rxp reader, range filters, transformation, splitter,
  stats and voxel filter are foreign calls. The splitter's chunks are an input
  of the worker, and the stats values are not modelled.
- TileGrid.TileTable: the extent is a single feature, one membership
  predicate. `sjoin` (line 344) gives one row per point and feature, so a
  bounding-geometry file with overlapping features, or features sharing an
  edge through a lattice point, gives two rows at one origin. Every chunk
  routed there then raises at line 118. The model does not capture such
  duplicate rows, and TileGrid.SnappedTableHasUniqueOrigins holds only for
  the single-feature table.
- **shapely and geopandas geometry.** These are the rotated rectangle, convex
  hull, envelope, mitre buffer and the `sjoin` point-in-polygon test. The
  polygon is an abstract membership predicate `inside`. The bounds of a derived
  geometry are an input.
- **numpy matrix loading and products.** This includes `np.loadtxt` and the
  global matrix, which are floating-point numerics. The matrix lookup is
  modelled only as "the glob finds a file".
- **multiprocessing.** The pool, the manager and the per-tile locks are not
  modelled. Workers run one after another. `AppendOrderIrrelevant` and
  `ScanOrderIrrelevant` state that the order does not change any fragment's
  records.
- **File I/O.** Directory listings and glob results are parameters, and the
  `np.fromfile`/`tobytes` record encoding is not modelled. The `.ply` writer
  becomes a map from output name to records. The store models only the output
  directory.
- **The final conversion loop of `main`.** Without per-scan fragments, line
  393 globs every `*.xyz` in the output directory, so stale fragments and
  unrelated `.xyz` files are converted and deleted too. The store can start
  with such files (its constructor takes the directory's contents), and
  ConvertFragment applies to any of them, but the loop itself is not modelled.
- Fragments.FragmentStore.ConvertFragment: replaces `.xyz` by `.ply` in the
  file name only. The source replaces it in the whole path (line 203), so an
  output directory whose path contains `.xyz` sends the `.ply` elsewhere; the
  model does not capture that.
- ScanWorker.WorkerPlan: the capture listing is the listing of the directory
  the glob searches, `scans` inside the scan directory when its name contains
  `SCNPOS` (lines 36-42). Choosing that directory is path plumbing and is not
  modelled.
- **Logging and printing.** `write_to_log`, `print`, `tqdm` and the verbose
  messages are not modelled.
- **Clocks and date parsing.** `datetime.now()` becomes the `start` and `end`
  seconds, as reals. `calculate_duration`'s `strptime` attempts are the
  parameter `elapsed`. `get_date_from_line` and the file-modification-time
  fallback are not modelled.
- **The `update_status_from_logs` driver.** Its directory walk is not
  modelled; `LogStep` models its name, status and skip rule.
  - The driver clears projects in the default status file (line 155) but
    updates the file given by `--status-file` (line 210). The model has a
    single `StatusFile` and does not capture two files.
  - `get_project_status`, `write_to_log` and the CLI are not modelled.
- **The JSON layer of the status file.** `Status.StatusFile.Load` takes the
  decoded table as given. Records with missing or extra keys, which the source
  would reject with a `KeyError` or keep, are not modelled.
- ScanWorker.ScanId: `int()` is modelled for an optional sign and decimal
  digits only. Surrounding whitespace and `_` digit separators, which Python
  also accepts, parse as errors here.
- **QSM script text.** The float `linspace` parameter values are represented by
  their indices 0..4. The constant script lines, the `input.name` line (lines
  77-79, which depends on the `results` directory and the tree name), the
  `results`/`rdir` directories made along the way and the `ntree` variable are
  not modelled. A script is its parameter indices, cloud lines and model-loop
  bounds.
- **The plotting in `tree_figs.py`.** Only `hexitriplet` is modelled; the
  random colour draw is a parameter.
- **Exceptions outside the modelled steps** (I/O errors, pdal failures) are
  not modelled. The outer handler of `tile_data` is modelled only for the
  errors the model raises: a scan id that does not parse and an ambiguous tile
  lookup.
- **`main`'s other checks.** These are the "no scan positions found" and
  "no matrix files found" errors, the `--pos` override and `bbox_only` exit,
  and the tile-index CSV writer. They are I/O and argument plumbing.

## Findings

| source | as written | input that shows it | evidently intended | confidence | as-written member | corrected member |
|---|---|---|---|---|---|---|
| scripts/python/rxp2ply.py:297 | The explicit-box branch calls `Polygon`, but line 15 imports only `Point`, so it raises `NameError` | `--bbox 0 0 20 20` with no bounding geometry | A box polygon built from the four bounds | not executed | Extent.ExplicitBoxRaisesAsWritten | Extent.SelectExtent |
| scripts/python/rxp2ply.py:166 | The merge globs `{tile}.*.xyz`, but line 124 writes per-scan fragments as `{plot_code}{tile}.{sp}.xyz` | plot code `plot`, tile 0 of a run with width 3, scan 1: fragment `plot_000.1.xyz` is never merged or deleted | Glob with the plot prefix, `{plot_code}{tile}.*.xyz` | not executed | Fragments.AsWrittenGlobMissesFragment | Fragments.StemFindsOwnFragments |

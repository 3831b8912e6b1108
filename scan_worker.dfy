/**
 * One scan position's worker, rxp2ply.py's `tile_data`: pick the latest
 * capture file, read the scan id off the directory name, check that a
 * rotation matrix exists, then route every chunk the splitter produces and
 * append the routed records to the tile's fragment. The capture-directory
 * and matrix-directory listings and the splitter's chunks are inputs; the
 * pdal pipeline that turns the capture into chunks is not part of this model.
 */
module ScanWorker {
  import opened Wrappers
  import opened Numerals
  import opened Text
  import opened Extent
  import opened TileGrid
  import opened Routing
  import opened Fragments

  /** `int(scan.replace(prefix, '').replace('.SCNPOS', ''))`, or None where `int` raises. */
  function ScanId(scan: string, prefix: string): Option<int>
  {
    ParseInt(RemoveAll(RemoveAll(scan, prefix), ".SCNPOS"))
  }

  predicate IsDecimalDigit(c: char)
  {
    '0' <= c <= '9'
  }

  /** Removing the prefix from `prefix + digits + suffix` leaves `digits + suffix`. */
  lemma RemovePrefix(prefix: string, ds: string, suffix: string)
    requires |prefix| > 0 && prefix[0] !in ds && !Contains(suffix, prefix)
    ensures RemoveAll(prefix + ds + suffix, prefix) == ds + suffix
  {
    var rest := ds + suffix;
    assert prefix + ds + suffix == prefix + rest;
    calc {
      RemoveAll(prefix + rest, prefix);
      ReplaceAll(prefix + rest, prefix, []);
      { ReplaceAtStart(prefix, rest, []); }
      [] + ReplaceAll(rest, prefix, []);
      { ReplaceSkips(ds, suffix, prefix, []); }
      [] + (ds + ReplaceAll(suffix, prefix, []));
      { ReplaceAbsent(suffix, prefix, []); }
      rest;
    }
  }

  /** Removing `.SCNPOS` from digits, with or without it at the end, leaves the digits. */
  lemma RemoveScnpos(ds: string, withSuffix: bool)
    requires '.' !in ds
    ensures RemoveAll(ds + (if withSuffix then ".SCNPOS" else ""), ".SCNPOS") == ds
  {
    var suffix := if withSuffix then ".SCNPOS" else "";
    ReplaceSkips(ds, suffix, ".SCNPOS", []);
    if withSuffix {
      ReplaceAtStart(".SCNPOS", [], []);
      assert ".SCNPOS" + [] == ".SCNPOS";
    }
  }

  /** Zero-filled digits read back as their number with `int`. */
  lemma ParseZeroFilled(k: nat, width: nat)
    ensures ParseInt(Format(k, width, 10)) == Some(k)
    ensures forall i :: 0 <= i < |Format(k, width, 10)| ==> IsDecimalDigit(Format(k, width, 10)[i])
  {
    var ds := Format(k, width, 10);
    FormatIsDigits(k, width, 10);
    FormatParses(k, width, 10);
    assert CharDigit(ds[0]).Some?;
  }

  /**
   * A directory named by the prefix and a zero-filled number, with or without
   * `.SCNPOS`, gives back that number, provided the prefix starts with a
   * non-digit and does not occur in `.SCNPOS`.
   */
  lemma ScanIdOfDirectoryName(prefix: string, k: nat, width: nat, withSuffix: bool)
    requires |prefix| > 0 && !IsDecimalDigit(prefix[0]) && !Contains(".SCNPOS", prefix)
    ensures ScanId(prefix + Format(k, width, 10) + (if withSuffix then ".SCNPOS" else ""), prefix) == Some(k)
  {
    var ds := Format(k, width, 10);
    var suffix := if withSuffix then ".SCNPOS" else "";
    ParseZeroFilled(k, width);
    assert prefix[0] !in ds;
    assert '.' !in ds;
    assert !Contains(suffix, prefix);
    RemovePrefix(prefix, ds, suffix);
    RemoveScnpos(ds, withSuffix);
  }

  /** The default prefix: `ScanPos001.SCNPOS` is scan 1. */
  lemma DefaultPrefixScanId()
    ensures ScanId("ScanPos001.SCNPOS", "ScanPos") == Some(1)
  {
    assert Format(1, 3, 10) == "001";
    assert "ScanPos" + "001" + ".SCNPOS" == "ScanPos001.SCNPOS";
    assert ".SCNPOS"[..7][0] != "ScanPos"[0];
    assert !Contains(".SCNPOS"[1..], "ScanPos");
    assert !Contains(".SCNPOS", "ScanPos");
    ScanIdOfDirectoryName("ScanPos", 1, 3, true);
  }

  /** The glob `??????_??????.rxp`, or `??????_??????.mon.rxp` in test mode (no hidden files). */
  predicate IsCaptureName(name: string, test: bool)
  {
    var tail := if test then ".mon.rxp" else ".rxp";
    |name| == 13 + |tail| && name[0] != '.' && name[6] == '_' && name[13..] == tail && '/' !in name
  }

  function Captures(entries: seq<string>, test: bool): (cs: seq<string>)
    ensures forall c :: c in cs <==> c in entries && IsCaptureName(c, test)
  {
    if entries == [] then []
    else (if IsCaptureName(entries[0], test) then [entries[0]] else []) + Captures(entries[1..], test)
  }

  /** `sorted(names)[-1]`: the greatest name. */
  function Latest(names: seq<string>): (r: string)
    requires |names| > 0
    ensures r in names
    ensures forall n :: n in names ==> LexLe(n, r)
  {
    LexLeReflexive(names[0]);
    if |names| == 1 then names[0]
    else
      var m := Latest(names[1..]);
      LexLeTotal(names[0], m);
      if LexLe(names[0], m) then m
      else
        forall n | n in names[1..] ensures LexLe(n, names[0]) {
          LexLeTransitive(n, m, names[0]);
        }
        names[0]
  }

  /** Sorting the full paths of one directory sorts the names. */
  lemma {:induction false} CommonPrefixOrder(dir: string, a: string, b: string)
    ensures LexLe(dir + a, dir + b) <==> LexLe(a, b)
    decreases |dir|
  {
    if dir == [] {
      assert dir + a == a && dir + b == b;
    } else {
      assert (dir + a)[1..] == dir[1..] + a;
      assert (dir + b)[1..] == dir[1..] + b;
      CommonPrefixOrder(dir[1..], a, b);
    }
  }

  /** The capture the worker reads: the latest matching name, or None where the `[-1]` raises. */
  function ChosenCapture(entries: seq<string>, test: bool): (r: Option<string>)
    ensures r == None <==> forall e :: e in entries ==> !IsCaptureName(e, test)
    ensures r.Some? ==> (r.value in entries && IsCaptureName(r.value, test)
      && forall e :: e in entries && IsCaptureName(e, test) ==> LexLe(e, r.value))
  {
    var cs := Captures(entries, test);
    if |cs| == 0 then None else Some(Latest(cs))
  }

  /** `scan.replace('.SCNPOS', '')`: the name the rotation matrix is looked up under. */
  function MatrixStem(scan: string): string
  {
    RemoveAll(scan, ".SCNPOS")
  }

  /** The glob `{stem}.*` in the matrix directory. */
  predicate MatchesMatrixGlob(name: string, stem: string)
  {
    |name| >= |stem| + 1 && name[..|stem| + 1] == stem + "."
  }

  /** The glob `{stem}.*` finds at least one file. */
  predicate HasMatrix(entries: seq<string>, stem: string)
  {
    exists m :: m in entries && MatchesMatrixGlob(m, stem)
  }

  /** The parts of `args` a worker reads. */
  datatype RunConfig = RunConfig(
    prefix: string,        // `--prefix`
    test: bool,            // `--test`
    storeWithSp: bool,     // `--store-tmp-with-sp`
    plotPrefix: string,    // `plot_code` after `main` added the underscore
    width: nat,            // `args.n`
    tiles: seq<Tile>,      // `args.tiles`
    box: BBox,             // the snapped `args.bbox`
    tile: real)            // `--tile`

  /** How a worker ends. */
  datatype WorkerOutcome =
    | NoCapture      // no capture file: returns early
    | NoMatrix       // no rotation matrix: returns early
    | Failed         // an exception, caught and logged by the outer handler
    | Finished

  /** The appends a worker makes, in order, and how it ends. */
  datatype Plan = Plan(ops: seq<AppendOp>, outcome: WorkerOutcome)

  /** The fragment a chunk routed to tile `t` is appended to. */
  function TargetName(cfg: RunConfig, t: Tile, sp: int): string
  {
    FragmentName(cfg.plotPrefix, TileName(t.id, cfg.width), cfg.storeWithSp, sp)
  }

  /** The loop over the splitter's chunks. */
  function RouteAll(cfg: RunConfig, sp: int, chunks: seq<seq<RawPoint>>): (p: Plan)
    requires cfg.tile > 0.0
    ensures p.outcome == Finished || p.outcome == Failed
    decreases |chunks|
  {
    if chunks == [] then Plan([], Finished)
    else
      match RouteChunk(cfg.tiles, cfg.box, cfg.tile, sp, chunks[0])
      case Skipped => RouteAll(cfg, sp, chunks[1..])
      case Unassigned => RouteAll(cfg, sp, chunks[1..])
      case Raised => Plan([], Failed)
      case ToTile(t, recs) =>
        var rest := RouteAll(cfg, sp, chunks[1..]);
        Plan([AppendOp(TargetName(cfg, t, sp), recs)] + rest.ops, rest.outcome)
  }

  /** The chunk loop fails exactly when some chunk's lookup raises. */
  predicate SomeChunkRaises(cfg: RunConfig, sp: int, chunks: seq<seq<RawPoint>>)
    requires cfg.tile > 0.0
  {
    exists i :: 0 <= i < |chunks| && ChunkRaises(cfg, sp, chunks[i])
  }

  /** The table lookup for this chunk raises. */
  predicate ChunkRaises(cfg: RunConfig, sp: int, chunk: seq<RawPoint>)
    requires cfg.tile > 0.0
  {
    RouteChunk(cfg.tiles, cfg.box, cfg.tile, sp, chunk).Raised?
  }

  lemma {:induction false} RouteAllFailsIffRaise(cfg: RunConfig, sp: int, chunks: seq<seq<RawPoint>>)
    requires cfg.tile > 0.0
    ensures RouteAll(cfg, sp, chunks).outcome == Failed <==> SomeChunkRaises(cfg, sp, chunks)
    decreases |chunks|
  {
    if chunks != [] {
      RouteAllFailsIffRaise(cfg, sp, chunks[1..]);
      OutcomeStep(cfg, sp, chunks);
      SomeChunkRaisesCons(cfg, sp, chunks);
    }
  }

  /** The loop's outcome after its first chunk. */
  lemma OutcomeStep(cfg: RunConfig, sp: int, chunks: seq<seq<RawPoint>>)
    requires cfg.tile > 0.0 && chunks != []
    ensures RouteAll(cfg, sp, chunks).outcome ==
      if ChunkRaises(cfg, sp, chunks[0]) then Failed else RouteAll(cfg, sp, chunks[1..]).outcome
  {
    RouteAllStep(cfg, sp, chunks, 0);
    assert chunks[0..] == chunks;
  }

  lemma SomeChunkRaisesCons(cfg: RunConfig, sp: int, chunks: seq<seq<RawPoint>>)
    requires cfg.tile > 0.0 && chunks != []
    ensures SomeChunkRaises(cfg, sp, chunks) <==> ChunkRaises(cfg, sp, chunks[0]) || SomeChunkRaises(cfg, sp, chunks[1..])
  {
    var rest := chunks[1..];
    if SomeChunkRaises(cfg, sp, chunks) && !ChunkRaises(cfg, sp, chunks[0]) {
      var i :| 0 <= i < |chunks| && ChunkRaises(cfg, sp, chunks[i]);
      assert ChunkRaises(cfg, sp, rest[i - 1]);
    }
    if SomeChunkRaises(cfg, sp, rest) {
      var i :| 0 <= i < |rest| && ChunkRaises(cfg, sp, rest[i]);
      assert ChunkRaises(cfg, sp, chunks[i + 1]);
    }
  }

  /** The whole worker, step by step as `tile_data` takes them. */
  function WorkerPlan(cfg: RunConfig, scan: string, captureEntries: seq<string>, matrixEntries: seq<string>,
                      chunks: seq<seq<RawPoint>>): Plan
    requires cfg.tile > 0.0
  {
    if ChosenCapture(captureEntries, cfg.test) == None then Plan([], NoCapture)
    else
      match ScanId(scan, cfg.prefix)
      case None => Plan([], Failed)
      case Some(sp) =>
        if !HasMatrix(matrixEntries, MatrixStem(scan)) then Plan([], NoMatrix)
        else RouteAll(cfg, sp, chunks)
  }

  /** A worker that returns early, or fails before routing, appends nothing. */
  lemma EarlyReturnWritesNothing(cfg: RunConfig, scan: string, captureEntries: seq<string>,
                                 matrixEntries: seq<string>, chunks: seq<seq<RawPoint>>)
    requires cfg.tile > 0.0
    ensures var p := WorkerPlan(cfg, scan, captureEntries, matrixEntries, chunks);
      (p.outcome == NoCapture || p.outcome == NoMatrix || ScanId(scan, cfg.prefix) == None) ==> p.ops == []
    ensures WorkerPlan(cfg, scan, captureEntries, matrixEntries, chunks).outcome == NoCapture
      <==> forall e :: e in captureEntries ==> !IsCaptureName(e, cfg.test)
  {
  }

  /** What every append of the chunk loop looks like. */
  predicate WellRouted(cfg: RunConfig, sp: int, op: AppendOp)
    requires cfg.tile > 0.0
  {
    op.recs != []
    && (forall r :: r in op.recs ==> InBox(r, cfg.box) && r.sp == sp)
    && exists t :: t in cfg.tiles && OriginOf(t) == ChunkOrigin(op.recs, cfg.tile) && op.name == TargetName(cfg, t, sp)
  }

  /**
   * Every append carries a non-empty run of records, all inside the box and
   * tagged with the scan id, to the fragment of the tile at the chunk's origin.
   */
  lemma {:induction false} RoutedAppendsAreWellRouted(cfg: RunConfig, sp: int, chunks: seq<seq<RawPoint>>)
    requires cfg.tile > 0.0
    ensures forall op :: op in RouteAll(cfg, sp, chunks).ops ==> WellRouted(cfg, sp, op)
    decreases |chunks|
  {
    if chunks != [] {
      RoutedAppendsAreWellRouted(cfg, sp, chunks[1..]);
    }
  }

  /** On a table with unique origins the chunk loop always runs to the end. */
  lemma {:induction false} UniqueTableFinishes(cfg: RunConfig, sp: int, chunks: seq<seq<RawPoint>>)
    requires cfg.tile > 0.0 && UniqueOrigins(cfg.tiles)
    ensures RouteAll(cfg, sp, chunks).outcome == Finished
    decreases |chunks|
  {
    if chunks != [] {
      RoutingNeverRaises(cfg.tiles, cfg.box, cfg.tile, sp, chunks[0]);
      UniqueTableFinishes(cfg, sp, chunks[1..]);
    }
  }

  /** Tile ids are the row numbers, as the table building assigns them. */
  predicate DenseIds(tiles: seq<Tile>)
  {
    forall k :: 0 <= k < |tiles| ==> tiles[k].id == k
  }

  /** Every append of the chunk loop goes to the fragment of some row of the table. */
  lemma AppendTargetsRow(cfg: RunConfig, sp: int, chunks: seq<seq<RawPoint>>, op: AppendOp)
    requires cfg.tile > 0.0 && op in RouteAll(cfg, sp, chunks).ops
    ensures exists k :: 0 <= k < |cfg.tiles| && op.name == TargetName(cfg, cfg.tiles[k], sp)
  {
    RoutedAppendsAreWellRouted(cfg, sp, chunks);
    assert WellRouted(cfg, sp, op);
    var t :| t in cfg.tiles && OriginOf(t) == ChunkOrigin(op.recs, cfg.tile) && op.name == TargetName(cfg, t, sp);
    var k :| 0 <= k < |cfg.tiles| && cfg.tiles[k] == t;
  }

  /**
   * In per-scan mode, a fragment file that two workers both append to has one
   * scan id behind it: workers for different scans never share a file.
   */
  lemma SharedFileMeansSameScan(cfg: RunConfig, sp1: int, sp2: int, chunks1: seq<seq<RawPoint>>,
                                chunks2: seq<seq<RawPoint>>, op1: AppendOp, op2: AppendOp)
    requires cfg.tile > 0.0 && cfg.storeWithSp && DenseIds(cfg.tiles) && cfg.width == PadWidth(|cfg.tiles|)
    requires op1 in RouteAll(cfg, sp1, chunks1).ops && op2 in RouteAll(cfg, sp2, chunks2).ops
    requires op1.name == op2.name
    ensures sp1 == sp2
  {
    AppendTargetsRow(cfg, sp1, chunks1, op1);
    AppendTargetsRow(cfg, sp2, chunks2, op2);
    var k1 :| 0 <= k1 < |cfg.tiles| && op1.name == TargetName(cfg, cfg.tiles[k1], sp1);
    var k2 :| 0 <= k2 < |cfg.tiles| && op2.name == TargetName(cfg, cfg.tiles[k2], sp2);
    assert cfg.tiles[k1].id == k1 && cfg.tiles[k2].id == k2;
    FragmentNameInjective(cfg.plotPrefix, |cfg.tiles|, k1, k2, true, sp1, sp2);
  }

  /** `tile_data` against the fragment store. */
  method TileData(store: FragmentStore, cfg: RunConfig, scan: string, captureEntries: seq<string>,
                  matrixEntries: seq<string>, chunks: seq<seq<RawPoint>>)
    returns (outcome: WorkerOutcome, capture: Option<string>)
    requires cfg.tile > 0.0
    modifies store
    ensures capture == ChosenCapture(captureEntries, cfg.test)
    ensures outcome == WorkerPlan(cfg, scan, captureEntries, matrixEntries, chunks).outcome
    ensures store.fragments == ApplyAppends(old(store.fragments), WorkerPlan(cfg, scan, captureEntries, matrixEntries, chunks).ops)
    ensures store.outputs == old(store.outputs)
  {
    capture := ChosenCapture(captureEntries, cfg.test);
    if capture == None {
      return NoCapture, capture;
    }
    var id := ScanId(scan, cfg.prefix);
    if id == None {
      return Failed, capture;
    }
    var sp := id.value;
    if !HasMatrix(matrixEntries, MatrixStem(scan)) {
      return NoMatrix, capture;
    }
    outcome := RouteChunks(store, cfg, sp, chunks);
  }

  /** The loop over the splitter's chunks, appending each routed chunk to its tile's fragment. */
  method RouteChunks(store: FragmentStore, cfg: RunConfig, sp: int, chunks: seq<seq<RawPoint>>)
    returns (outcome: WorkerOutcome)
    requires cfg.tile > 0.0
    modifies store
    ensures outcome == RouteAll(cfg, sp, chunks).outcome
    ensures store.fragments == ApplyAppends(old(store.fragments), RouteAll(cfg, sp, chunks).ops)
    ensures store.outputs == old(store.outputs)
  {
    ghost var total := RouteAll(cfg, sp, chunks);
    var i := 0;
    assert chunks[i..] == chunks;
    while i < |chunks|
      invariant 0 <= i <= |chunks|
      invariant RouteAll(cfg, sp, chunks[i..]).outcome == total.outcome
      invariant ApplyAppends(store.fragments, RouteAll(cfg, sp, chunks[i..]).ops)
             == ApplyAppends(old(store.fragments), total.ops)
      invariant store.outputs == old(store.outputs)
    {
      ChunkStep(cfg, sp, chunks, i, store.fragments);
      var raised := RouteOne(store, cfg, sp, chunks[i]);
      if raised {
        return Failed;
      }
      i := i + 1;
    }
    return Finished;
  }

  /** One pass of the chunk loop: a routed chunk is appended to its tile's fragment. */
  method RouteOne(store: FragmentStore, cfg: RunConfig, sp: int, chunk: seq<RawPoint>) returns (raised: bool)
    requires cfg.tile > 0.0
    modifies store
    ensures var routed := RouteChunk(cfg.tiles, cfg.box, cfg.tile, sp, chunk);
      raised == routed.Raised?
      && store.fragments == if routed.ToTile? then Appended(old(store.fragments), TargetName(cfg, routed.tile, sp), routed.recs)
                            else old(store.fragments)
    ensures store.outputs == old(store.outputs)
  {
    var routed := RouteChunk(cfg.tiles, cfg.box, cfg.tile, sp, chunk);
    raised := routed.Raised?;
    if routed.ToTile? {
      store.Append(TargetName(cfg, routed.tile, sp), routed.recs);
    }
  }

  /** One pass of the chunk loop: the plan from chunk `i` on is chunk `i`'s effect followed by the rest. */
  lemma RouteAllStep(cfg: RunConfig, sp: int, chunks: seq<seq<RawPoint>>, i: nat)
    requires cfg.tile > 0.0 && i < |chunks|
    ensures var routed := RouteChunk(cfg.tiles, cfg.box, cfg.tile, sp, chunks[i]);
      var rest := RouteAll(cfg, sp, chunks[i + 1..]);
      RouteAll(cfg, sp, chunks[i..]) ==
        if routed.Raised? then Plan([], Failed)
        else if routed.ToTile? then Plan([AppendOp(TargetName(cfg, routed.tile, sp), routed.recs)] + rest.ops, rest.outcome)
        else rest
  {
    assert chunks[i..][0] == chunks[i];
    assert chunks[i..][1..] == chunks[i + 1..];
  }

  /** What one pass of the chunk loop does to the fragments and to the rest of the plan. */
  lemma ChunkStep(cfg: RunConfig, sp: int, chunks: seq<seq<RawPoint>>, i: nat, m: Files)
    requires cfg.tile > 0.0 && i < |chunks|
    ensures var routed := RouteChunk(cfg.tiles, cfg.box, cfg.tile, sp, chunks[i]);
      var here, rest := RouteAll(cfg, sp, chunks[i..]), RouteAll(cfg, sp, chunks[i + 1..]);
      (routed.Raised? ==> here == Plan([], Failed))
      && (!routed.Raised? ==> here.outcome == rest.outcome)
      && (routed.ToTile? ==>
            ApplyAppends(m, here.ops) == ApplyAppends(Appended(m, TargetName(cfg, routed.tile, sp), routed.recs), rest.ops))
      && (!routed.Raised? && !routed.ToTile? ==> here.ops == rest.ops)
  {
    RouteAllStep(cfg, sp, chunks, i);
    var routed := RouteChunk(cfg.tiles, cfg.box, cfg.tile, sp, chunks[i]);
    if routed.ToTile? {
      ApplyAppendsCons(m, AppendOp(TargetName(cfg, routed.tile, sp), routed.recs), RouteAll(cfg, sp, chunks[i + 1..]).ops);
    }
  }

  /** One scan position's inputs. */
  datatype ScanInput = ScanInput(scan: string, captureEntries: seq<string>, matrixEntries: seq<string>,
                                 chunks: seq<seq<RawPoint>>)

  function PlanOf(cfg: RunConfig, s: ScanInput): Plan
    requires cfg.tile > 0.0
  {
    WorkerPlan(cfg, s.scan, s.captureEntries, s.matrixEntries, s.chunks)
  }

  /** The appends of one worker, as a function of its scan position. */
  function ScanOps(cfg: RunConfig): ScanInput -> seq<AppendOp>
    requires cfg.tile > 0.0
  {
    (s: ScanInput) requires cfg.tile > 0.0 => PlanOf(cfg, s).ops
  }

  /** Every append of the whole scan phase, worker after worker. */
  function AllAppends(cfg: RunConfig, scans: seq<ScanInput>): seq<AppendOp>
    requires cfg.tile > 0.0
  {
    ConcatMap(scans, ScanOps(cfg))
  }

  /** How one worker ends, as a one-element list. */
  function ScanOutcome(cfg: RunConfig): ScanInput -> seq<WorkerOutcome>
    requires cfg.tile > 0.0
  {
    (s: ScanInput) requires cfg.tile > 0.0 => [PlanOf(cfg, s).outcome]
  }

  /** How the workers of the scan phase end, worker after worker. */
  function Outcomes(cfg: RunConfig, scans: seq<ScanInput>): seq<WorkerOutcome>
    requires cfg.tile > 0.0
  {
    ConcatMap(scans, ScanOutcome(cfg))
  }

  /** There is one outcome per scan position, that position's worker outcome. */
  lemma OutcomesPerScan(cfg: RunConfig, scans: seq<ScanInput>)
    requires cfg.tile > 0.0
    ensures |Outcomes(cfg, scans)| == |scans|
    ensures forall k :: 0 <= k < |scans| ==> Outcomes(cfg, scans)[k] == PlanOf(cfg, scans[k]).outcome
  {
    ConcatMapSingletons(scans, ScanOutcome(cfg));
  }

  /**
   * The scan phase with the workers one after another. The pool runs them
   * concurrently, each append under its tile's lock.
   */
  method RunScans(store: FragmentStore, cfg: RunConfig, scans: seq<ScanInput>)
    returns (outcomes: seq<WorkerOutcome>)
    requires cfg.tile > 0.0
    modifies store
    ensures outcomes == Outcomes(cfg, scans)
    ensures store.fragments == ApplyAppends(old(store.fragments), AllAppends(cfg, scans))
    ensures store.outputs == old(store.outputs)
  {
    outcomes := [];
    var i := 0;
    while i < |scans|
      invariant 0 <= i <= |scans|
      invariant outcomes == Outcomes(cfg, scans[..i])
      invariant store.fragments == ApplyAppends(old(store.fragments), AllAppends(cfg, scans[..i]))
      invariant store.outputs == old(store.outputs)
    {
      var s := scans[i];
      ScanStep(cfg, scans, i, old(store.fragments));
      var outcome, _ := TileData(store, cfg, s.scan, s.captureEntries, s.matrixEntries, s.chunks);
      outcomes := outcomes + [outcome];
      i := i + 1;
    }
    assert scans[..i] == scans;
  }

  /** One more worker adds its outcome and its appends at the end. */
  lemma ScanStep(cfg: RunConfig, scans: seq<ScanInput>, i: nat, m: Files)
    requires cfg.tile > 0.0 && i < |scans|
    ensures var plan := WorkerPlan(cfg, scans[i].scan, scans[i].captureEntries, scans[i].matrixEntries, scans[i].chunks);
      Outcomes(cfg, scans[..i + 1]) == Outcomes(cfg, scans[..i]) + [plan.outcome]
      && ApplyAppends(m, AllAppends(cfg, scans[..i + 1])) == ApplyAppends(ApplyAppends(m, AllAppends(cfg, scans[..i])), plan.ops)
  {
    ConcatMapSnoc(scans, i, ScanOutcome(cfg));
    AllAppendsStep(cfg, scans, i);
    ApplyAppendsConcat(m, AllAppends(cfg, scans[..i]), PlanOf(cfg, scans[i]).ops);
  }

  lemma AllAppendsStep(cfg: RunConfig, scans: seq<ScanInput>, i: nat)
    requires cfg.tile > 0.0 && i < |scans|
    ensures AllAppends(cfg, scans[..i + 1]) == AllAppends(cfg, scans[..i]) + PlanOf(cfg, scans[i]).ops
  {
    ConcatMapSnoc(scans, i, ScanOps(cfg));
  }

  lemma {:induction false} ApplyAppendsConcat(m: Files, a: seq<AppendOp>, b: seq<AppendOp>)
    ensures ApplyAppends(m, a + b) == ApplyAppends(ApplyAppends(m, a), b)
    decreases |a|
  {
    if a == [] {
      assert a + b == b;
    } else {
      assert (a + b)[0] == a[0];
      assert (a + b)[1..] == a[1..] + b;
      ApplyAppendsConcat(Appended(m, a[0].name, a[0].recs), a[1..], b);
    }
  }

  /**
   * Whatever order the pool runs the workers in, every fragment ends up with
   * the same records.
   */
  lemma ScanOrderIrrelevant(cfg: RunConfig, m: Files, scans1: seq<ScanInput>, scans2: seq<ScanInput>, name: string)
    requires cfg.tile > 0.0 && multiset(scans1) == multiset(scans2)
    ensures multiset(Existing(ApplyAppends(m, AllAppends(cfg, scans1)), name))
         == multiset(Existing(ApplyAppends(m, AllAppends(cfg, scans2)), name))
  {
    ConcatMapPermutation(scans1, scans2, ScanOps(cfg));
    AppendOrderIrrelevant(m, AllAppends(cfg, scans1), AllAppends(cfg, scans2), name);
  }
}

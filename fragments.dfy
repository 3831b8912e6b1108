/**
 * The temporary per-tile fragment files of rxp2ply.py: `tile_data` appends
 * each routed chunk's records to `{plot_code}{tile}.xyz` (or
 * `{plot_code}{tile}.{sp}.xyz` with `--store-tmp-with-sp`), each append under
 * that tile's lock; `xyz2ply_w_sp` concatenates and deletes the fragments the
 * glob `{tile}.*.xyz` finds and writes `{tile}.ply` when anything was found;
 * `xyz2ply` converts one `.xyz` file to the `.ply` of the same name.
 *
 * The output directory is a map from file name to the records in the file.
 */
module Fragments {
  import opened Numerals
  import opened Text
  import opened TileGrid
  import opened Routing

  type Files = map<string, seq<PointRecord>>

  /** A file opened with mode 'ab' starts out empty when it is not there yet. */
  function Existing(m: Files, name: string): seq<PointRecord>
  {
    if name in m then m[name] else []
  }

  /** The directory after one append of `recs` to `name`. */
  function Appended(m: Files, name: string, recs: seq<PointRecord>): (r: Files)
    ensures r.Keys == m.Keys + {name}
    ensures Existing(r, name) == Existing(m, name) + recs
    ensures forall k :: k != name ==> Existing(r, k) == Existing(m, k)
  {
    m[name := Existing(m, name) + recs]
  }

  /** An append grows only its own file, by exactly the appended records, and keeps what was there. */
  lemma AppendGrowsOneFile(m: Files, name: string, recs: seq<PointRecord>, other: string)
    requires other != name
    ensures |Existing(Appended(m, name, recs), name)| == |Existing(m, name)| + |recs|
    ensures Existing(Appended(m, name, recs), name)[..|Existing(m, name)|] == Existing(m, name)
    ensures other in Appended(m, name, recs) <==> other in m
    ensures Existing(Appended(m, name, recs), other) == Existing(m, other)
  {
    var before := Existing(m, name);
    assert (before + recs)[..|before|] == before;
  }

  /** The `plot_code` as `main` leaves it: an underscore is added to a non-empty code. */
  function PlotPrefix(code: string): (p: string)
    ensures code == [] ==> p == []
    ensures code != [] ==> |p| == |code| + 1 && p[..|code|] == code && p[|code|] == '_'
  {
    if code == [] then [] else code + "_"
  }

  /** `f'{plot_code}{tile_n}.{sp}.xyz'` with the scan id, `f'{plot_code}{tile_n}.xyz'` without. */
  function FragmentName(prefix: string, tileName: string, withSp: bool, sp: int): string
  {
    prefix + tileName + (if withSp then "." + Decimal(sp) else "") + ".xyz"
  }

  /** Two fragment names of the same run are equal only for the same tile (and scan, in per-scan mode). */
  lemma FragmentNameInjective(prefix: string, count: nat, a: nat, b: nat, withSp: bool, spa: int, spb: int)
    requires a < count && b < count
    requires FragmentName(prefix, TileName(a, PadWidth(count)), withSp, spa)
          == FragmentName(prefix, TileName(b, PadWidth(count)), withSp, spb)
    ensures a == b
    ensures withSp ==> spa == spb
  {
    var n := PadWidth(count);
    var ta, tb := TileName(a, n), TileName(b, n);
    TileNameRoundTrip(a, count);
    TileNameRoundTrip(b, count);
    var na := FragmentName(prefix, ta, withSp, spa);
    var nb := FragmentName(prefix, tb, withSp, spb);
    assert na[|prefix|..|prefix| + n] == ta;
    assert nb[|prefix|..|prefix| + n] == tb;
    if withSp {
      var da, db := Decimal(spa), Decimal(spb);
      assert |na| == |prefix| + n + 1 + |da| + 4;
      assert |da| == |db|;
      assert na[|prefix| + n + 1..|na| - 4] == da;
      assert nb[|prefix| + n + 1..|nb| - 4] == db;
      DecimalParses(spa);
      DecimalParses(spb);
    }
  }

  /** The names the glob `{stem}.*.xyz` matches. */
  predicate MatchesScanGlob(name: string, stem: string)
  {
    |name| >= |stem| + 5 && name[..|stem| + 1] == stem + "." && name[|name| - 4..] == ".xyz"
  }

  /** The stem `xyz2ply_w_sp` globs with: the zero-filled tile id alone. */
  function AsWrittenStem(id: nat, width: nat): string
  {
    TileName(id, width)
  }

  /** The stem the fragments are written under: the plot prefix and the zero-filled tile id. */
  function FragmentStem(prefix: string, id: nat, width: nat): string
  {
    prefix + TileName(id, width)
  }

  /** With no plot code the two stems agree. */
  lemma StemsAgreeWithoutPlotCode(id: nat, width: nat)
    ensures AsWrittenStem(id, width) == FragmentStem(PlotPrefix(""), id, width)
  {
  }

  /** With plot code "plot", the fragment of tile 0 from scan 1 escapes the glob of tile 0. */
  lemma AsWrittenGlobMissesFragment()
    ensures FragmentName(PlotPrefix("plot"), TileName(0, 3), true, 1) == "plot_000.1.xyz"
    ensures !MatchesScanGlob("plot_000.1.xyz", AsWrittenStem(0, 3))
    ensures MatchesScanGlob("plot_000.1.xyz", FragmentStem(PlotPrefix("plot"), 0, 3))
  {
    assert TileName(0, 3) == "000";
    assert Decimal(1) == "1";
    assert "plot_000.1.xyz"[..4][0] == 'p';
    assert "plot_000.1.xyz"[..4] != AsWrittenStem(0, 3) + ".";
  }

  /** Every per-scan fragment of tile `id` matches the glob over that tile's stem. */
  lemma StemFindsOwnFragments(prefix: string, count: nat, id: nat, sp: int)
    requires id < count
    ensures var n := PadWidth(count);
      MatchesScanGlob(FragmentName(prefix, TileName(id, n), true, sp), FragmentStem(prefix, id, n))
  {
    var n := PadWidth(count);
    var stem := FragmentStem(prefix, id, n);
    var name := FragmentName(prefix, TileName(id, n), true, sp);
    assert name == stem + "." + Decimal(sp) + ".xyz";
    assert name[..|stem| + 1] == stem + ".";
    assert name[|name| - 4..] == ".xyz";
  }

  /** No fragment of another tile of the same run matches the glob over a tile's stem. */
  lemma StemSkipsOtherTiles(prefix: string, count: nat, id: nat, other: nat, withSp: bool, sp: int)
    requires id < count && other < count && other != id
    ensures var n := PadWidth(count);
      !MatchesScanGlob(FragmentName(prefix, TileName(other, n), withSp, sp), FragmentStem(prefix, id, n))
  {
    var n := PadWidth(count);
    var stem := FragmentStem(prefix, id, n);
    var name := FragmentName(prefix, TileName(other, n), withSp, sp);
    TileNameRoundTrip(id, count);
    TileNameRoundTrip(other, count);
    TileNamesDistinct(id, other, count);
    assert name[|prefix|..|prefix| + n] == TileName(other, n);
    assert (stem + ".")[|prefix|..|prefix| + n] == TileName(id, n);
    if |name| >= |stem| + 5 {
      assert name[..|stem| + 1][|prefix|..|prefix| + n] == TileName(other, n);
      assert name[..|stem| + 1] != stem + ".";
    }
  }

  /** `f(x0) + f(x1) + ...`: concatenation of the pieces in order. */
  function ConcatMap<T, U>(xs: seq<T>, f: T -> seq<U>): seq<U>
  {
    if xs == [] then [] else f(xs[0]) + ConcatMap(xs[1..], f)
  }

  lemma {:induction false} ConcatMapAppend<T, U>(xs: seq<T>, ys: seq<T>, f: T -> seq<U>)
    ensures ConcatMap(xs + ys, f) == ConcatMap(xs, f) + ConcatMap(ys, f)
  {
    if xs == [] {
      assert xs + ys == ys;
    } else {
      assert (xs + ys)[0] == xs[0];
      assert (xs + ys)[1..] == xs[1..] + ys;
      ConcatMapAppend(xs[1..], ys, f);
    }
  }

  /** Extending the list by one element extends the concatenation by that element's piece. */
  lemma ConcatMapSnoc<T, U>(xs: seq<T>, i: nat, f: T -> seq<U>)
    requires i < |xs|
    ensures ConcatMap(xs[..i + 1], f) == ConcatMap(xs[..i], f) + f(xs[i])
  {
    assert xs[..i + 1] == xs[..i] + [xs[i]];
    ConcatMapAppend(xs[..i], [xs[i]], f);
    assert ConcatMap([xs[i]], f) == f(xs[i]) + ConcatMap([], f);
  }

  /** When every piece has one element, the concatenation lists those elements in order. */
  lemma {:induction false} ConcatMapSingletons<T, U>(xs: seq<T>, f: T -> seq<U>)
    requires forall x :: |f(x)| == 1
    ensures |ConcatMap(xs, f)| == |xs|
    ensures forall k :: 0 <= k < |xs| ==> ConcatMap(xs, f)[k] == f(xs[k])[0]
    decreases |xs|
  {
    if xs != [] {
      ConcatMapSingletons(xs[1..], f);
      forall k | 1 <= k < |xs| ensures ConcatMap(xs, f)[k] == f(xs[k])[0] {
        assert xs[1..][k - 1] == xs[k];
      }
    }
  }

  /** Reordering the pieces reorders the records and nothing else. */
  lemma {:induction false} ConcatMapPermutation<T, U>(xs: seq<T>, ys: seq<T>, f: T -> seq<U>)
    requires multiset(xs) == multiset(ys)
    ensures multiset(ConcatMap(xs, f)) == multiset(ConcatMap(ys, f))
    decreases |xs|
  {
    if xs != [] {
      var x := xs[0];
      assert x in multiset(ys);
      var i :| 0 <= i < |ys| && ys[i] == x;
      var rest := ys[..i] + ys[i + 1..];
      RemoveMatched(xs, ys, i);
      ConcatMapPermutation(xs[1..], rest, f);
      var before, after := ConcatMap(ys[..i], f), ConcatMap(ys[i + 1..], f);
      ConcatMapAround(ys, i, f);
      ConcatMapAppend(ys[..i], ys[i + 1..], f);
      calc {
        multiset(ConcatMap(xs, f));
        multiset(f(x) + ConcatMap(xs[1..], f));
        multiset(f(x)) + multiset(before + after);
        multiset(before + f(x) + after);
      }
    }
  }

  /** Taking the first element off one listing and a matching element out of the other keeps them permutations. */
  lemma RemoveMatched<T>(xs: seq<T>, ys: seq<T>, i: nat)
    requires multiset(xs) == multiset(ys) && xs != [] && i < |ys| && ys[i] == xs[0]
    ensures multiset(xs[1..]) == multiset(ys[..i] + ys[i + 1..])
  {
    var x := xs[0];
    assert ys == ys[..i] + [x] + ys[i + 1..];
    assert xs == [x] + xs[1..];
    assert multiset(ys) == multiset(ys[..i]) + multiset([x]) + multiset(ys[i + 1..]);
    assert multiset(xs[1..]) == multiset(xs) - multiset([x]);
  }

  /** The concatenation splits around any one piece. */
  lemma ConcatMapAround<T, U>(ys: seq<T>, i: nat, f: T -> seq<U>)
    requires i < |ys|
    ensures ConcatMap(ys, f) == ConcatMap(ys[..i], f) + f(ys[i]) + ConcatMap(ys[i + 1..], f)
  {
    assert ys == ys[..i + 1] + ys[i + 1..];
    ConcatMapAppend(ys[..i + 1], ys[i + 1..], f);
    ConcatMapSnoc(ys, i, f);
  }

  /** The contents of the listed files, concatenated in listing order. */
  function Gather(m: Files, listing: seq<string>): seq<PointRecord>
  {
    ConcatMap(listing, Contents(m))
  }

  /** The contents of a file of the directory, as a function of its name. */
  function Contents(m: Files): string -> seq<PointRecord>
  {
    name => Existing(m, name)
  }

  /** The directory with every file the glob `{stem}.*.xyz` matches removed. */
  function WithoutMatches(m: Files, stem: string): (r: Files)
    ensures forall k :: k in r <==> k in m && !MatchesScanGlob(k, stem)
    ensures forall k :: k in r ==> r[k] == m[k]
  {
    map k | k in m && !MatchesScanGlob(k, stem) :: m[k]
  }

  /** A listing of the glob `{stem}.*.xyz`: each matching file once, in some order. */
  predicate IsGlobListing(m: Files, stem: string, listing: seq<string>)
  {
    (forall i, j :: 0 <= i < j < |listing| ==> listing[i] != listing[j])
    && (forall k :: k in listing ==> k in m && MatchesScanGlob(k, stem))
    && (forall k :: k in m && MatchesScanGlob(k, stem) ==> k in listing)
  }

  /** Removing exactly the listed names of a glob listing leaves the directory without the glob's matches. */
  lemma RemovedListing(m: Files, stem: string, listing: seq<string>, r: Files)
    requires IsGlobListing(m, stem, listing)
    requires forall k :: k in r <==> k in m && k !in listing
    requires forall k :: k in r ==> r[k] == m[k]
    ensures r == WithoutMatches(m, stem)
  {
    var w := WithoutMatches(m, stem);
    assert r.Keys == w.Keys;
  }

  /** Two listings of the same glob hold the same names. */
  lemma {:induction false} ListingsArePermutations(m: Files, stem: string, l1: seq<string>, l2: seq<string>)
    requires IsGlobListing(m, stem, l1) && IsGlobListing(m, stem, l2)
    ensures multiset(l1) == multiset(l2)
  {
    DistinctMultiset(l1);
    DistinctMultiset(l2);
    assert forall k :: k in l1 <==> k in l2;
    forall k ensures multiset(l1)[k] == multiset(l2)[k] {
      if k in l1 {
        assert k in multiset(l1) && k in multiset(l2);
      } else {
        assert k !in multiset(l1) && k !in multiset(l2);
      }
    }
  }

  lemma {:induction false} DistinctMultiset(l: seq<string>)
    requires forall i, j :: 0 <= i < j < |l| ==> l[i] != l[j]
    ensures forall k :: multiset(l)[k] <= 1
  {
    if l != [] {
      DistinctMultiset(l[1..]);
      assert l == [l[0]] + l[1..];
      assert l[0] !in l[1..];
    }
  }

  /** The merged output of a tile does not depend on the order the glob lists the fragments in. */
  lemma MergeOrderIrrelevant(m: Files, stem: string, l1: seq<string>, l2: seq<string>)
    requires IsGlobListing(m, stem, l1) && IsGlobListing(m, stem, l2)
    ensures multiset(Gather(m, l1)) == multiset(Gather(m, l2))
    ensures |Gather(m, l1)| == |Gather(m, l2)|
  {
    ListingsArePermutations(m, stem, l1, l2);
    ConcatMapPermutation(l1, l2, Contents(m));
    assert |multiset(Gather(m, l1))| == |multiset(Gather(m, l2))|;
  }

  /** One append, as a worker performs it under the tile's lock. */
  datatype AppendOp = AppendOp(name: string, recs: seq<PointRecord>)

  /** The directory after the appends, one at a time, in the given order. */
  function ApplyAppends(m: Files, ops: seq<AppendOp>): Files
    decreases |ops|
  {
    if ops == [] then m else ApplyAppends(Appended(m, ops[0].name, ops[0].recs), ops[1..])
  }

  /** Applying `[op] + ops` is applying `op`, then `ops`. */
  lemma ApplyAppendsCons(m: Files, op: AppendOp, ops: seq<AppendOp>)
    ensures ApplyAppends(m, [op] + ops) == ApplyAppends(Appended(m, op.name, op.recs), ops)
  {
    assert ([op] + ops)[0] == op;
    assert ([op] + ops)[1..] == ops;
  }

  /** What one append adds to `name`: its records when it targets `name`, nothing otherwise. */
  function AddedTo(name: string): AppendOp -> seq<PointRecord>
  {
    (op: AppendOp) => if op.name == name then op.recs else []
  }

  /** The records the appends add to `name`, in order. */
  function RecordsFor(ops: seq<AppendOp>, name: string): seq<PointRecord>
  {
    ConcatMap(ops, AddedTo(name))
  }

  /** After a sequence of appends, each file holds what it held, then its own appends in order. */
  lemma {:induction false} AppendsPerFile(m: Files, ops: seq<AppendOp>, name: string)
    ensures Existing(ApplyAppends(m, ops), name) == Existing(m, name) + RecordsFor(ops, name)
    decreases |ops|
  {
    if ops != [] {
      var m1 := Appended(m, ops[0].name, ops[0].recs);
      AppendsPerFile(m1, ops[1..], name);
      AppendAdds(m, ops[0], name);
      RecordsForCons(ops, name);
      var e, a, r := Existing(m, name), AddedTo(name)(ops[0]), RecordsFor(ops[1..], name);
      AppendAssoc(e, a, r);
    }
  }

  /** Concatenation is associative (stated generically, away from any record type). */
  lemma AppendAssoc<T>(a: seq<T>, b: seq<T>, c: seq<T>)
    ensures a + b + c == a + (b + c)
  {
  }

  /** The records for `ops` are those of its first append, then those of the rest. */
  lemma RecordsForCons(ops: seq<AppendOp>, name: string)
    requires ops != []
    ensures RecordsFor(ops, name) == AddedTo(name)(ops[0]) + RecordsFor(ops[1..], name)
  {
  }

  /** One append adds to `name` exactly what `AddedTo(name)` selects from it. */
  lemma AppendAdds(m: Files, op: AppendOp, name: string)
    ensures Existing(Appended(m, op.name, op.recs), name) == Existing(m, name) + AddedTo(name)(op)
  {
    if op.name != name {
      assert Existing(m, name) + [] == Existing(m, name);
    }
  }

  /** Appends to other files leave a file as it was. */
  lemma {:induction false} OtherAppendsAddNothing(ops: seq<AppendOp>, name: string)
    requires forall i :: 0 <= i < |ops| ==> ops[i].name != name
    ensures RecordsFor(ops, name) == []
    decreases |ops|
  {
    if ops != [] {
      OtherAppendsAddNothing(ops[1..], name);
    }
  }

  /**
   * The appends of concurrent workers land in some order; whatever the
   * order, every file ends up with the same records.
   */
  lemma AppendOrderIrrelevant(m: Files, ops1: seq<AppendOp>, ops2: seq<AppendOp>, name: string)
    requires multiset(ops1) == multiset(ops2)
    ensures multiset(Existing(ApplyAppends(m, ops1), name)) == multiset(Existing(ApplyAppends(m, ops2), name))
  {
    AppendsPerFile(m, ops1, name);
    AppendsPerFile(m, ops2, name);
    ConcatMapPermutation(ops1, ops2, AddedTo(name));
  }

  /** The output directory: temporary fragments and the written `.ply` files. */
  class FragmentStore {
    var fragments: Files
    var outputs: Files

    /**
     * The directory as the run finds it. Nothing clears it first, so
     * fragments and `.xyz` files left by an earlier run are part of it.
     */
    constructor (fragments0: Files, outputs0: Files)
      ensures fragments == fragments0 && outputs == outputs0
    {
      fragments := fragments0;
      outputs := outputs0;
    }

    /** `open(name, 'ab').write(...)`. */
    method Append(name: string, recs: seq<PointRecord>)
      modifies this
      ensures fragments == Appended(old(fragments), name, recs)
      ensures outputs == old(outputs)
    {
      fragments := fragments[name := Existing(fragments, name) + recs];
    }

    /**
     * `xyz2ply_w_sp` for one stem: concatenate the listed fragments in
     * listing order, deleting each, and write `{stem}.ply` only when the
     * concatenation is non-empty.
     */
    method MergeScanFragments(stem: string, listing: seq<string>) returns (merged: seq<PointRecord>)
      requires IsGlobListing(fragments, stem, listing)
      modifies this
      ensures merged == Gather(old(fragments), listing)
      ensures fragments == WithoutMatches(old(fragments), stem)
      ensures forall k :: k in fragments ==> !MatchesScanGlob(k, stem)
      ensures outputs == if merged != [] then old(outputs)[stem + ".ply" := merged] else old(outputs)
    {
      merged := [];
      var i := 0;
      while i < |listing|
        invariant 0 <= i <= |listing|
        invariant merged == Gather(old(fragments), listing[..i])
        invariant forall k :: k in fragments <==> k in old(fragments) && k !in listing[..i]
        invariant forall k :: k in fragments ==> fragments[k] == old(fragments)[k]
        invariant outputs == old(outputs)
      {
        var name := listing[i];
        assert name !in listing[..i];
        merged := merged + fragments[name];
        fragments := fragments - {name};
        ConcatMapSnoc(listing, i, Contents(old(fragments)));
        i := i + 1;
      }
      assert listing[..i] == listing;
      RemovedListing(old(fragments), stem, listing, fragments);
      if |merged| > 0 {
        outputs := outputs[stem + ".ply" := merged];
      }
    }

    /** `xyz2ply`: the fragment becomes the `.ply` file of the same name, and is deleted. */
    method ConvertFragment(name: string)
      requires name in fragments
      modifies this
      ensures outputs == old(outputs)[ReplaceAll(name, ".xyz", ".ply") := old(fragments)[name]]
      ensures fragments == old(fragments) - {name}
    {
      outputs := outputs[ReplaceAll(name, ".xyz", ".ply") := fragments[name]];
      fragments := fragments - {name};
    }
  }
}

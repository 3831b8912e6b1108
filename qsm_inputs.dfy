/**
 * generate_inputs.updated.py: for every tree point cloud, a sub-directory
 * named after the tree and one Octave script per combination of the three
 * patch-diameter parameters (five values each, 125 combinations). A counter
 * `i` starts at 0 for each tree and grows by `n_models` per combination; it
 * decides the script's file number and the block of model indices the
 * script's loop runs over. The parameter values themselves (`linspace`
 * floats) are represented by their indices 0..4; the constant lines of each
 * script are not modelled.
 */
module QsmInputs {
  import opened Wrappers
  import opened Numerals
  import opened Text

  /** An input file: its path, whether it exists, and its absolute path. */
  datatype Tree = Tree(path: string, present: bool, absPath: string)

  /**
   * The varying part of one script: the indices of PatchDiam1, PatchDiam2Min
   * and PatchDiam2Max, the cloud-loading lines, and the bounds of its
   * `for i = first:last` model loop.
   */
  datatype Script = Script(patchDiam1: nat, patchDiam2Min: nat, patchDiam2Max: nat,
                           cloud: seq<string>, first: int, last: int)

  /** What generating does to the file system, in order. */
  datatype Event = MakeDir(dir: string) | WriteFile(dir: string, file: string, script: Script)

  /** `os.path.basename(tree).split('.')[-1]`. */
  function FileType(path: string): (ftype: string)
    ensures '.' !in ftype && '/' !in ftype
  {
    var base := Basename(path);
    var ftype := AfterLast(base, '.');
    SuffixAvoids(base, |base| - |ftype|, '/');
    ftype
  }

  /** For `dir/front.ext` with no '.' in `ext` and no '/' after `dir`, the file type is `ext`. */
  lemma FileTypeIsExtension(dir: string, front: string, ext: string)
    requires '.' !in ext && '/' !in front && '/' !in ext
    ensures FileType(dir + "/" + front + "." + ext) == ext
  {
    var base := front + "." + ext;
    assert '/' !in base;
    assert dir + "/" + front + "." + ext == dir + ['/'] + base;
    AfterLastOf(dir, '/', base);
    assert base == front + ['.'] + ext;
    AfterLastOf(front, '.', ext);
  }

  /** The cloud-loading lines: label-3 points of a ply file, the first three columns of a txt file, nothing otherwise. */
  function CloudLines(ftype: string, absPath: string): (lines: seq<string>)
    ensures ftype != "ply" && ftype != "txt" ==> lines == []
  {
    if ftype == "ply" then
      ["cloud = read_ply('" + absPath + "');", "idx = (cloud(:, 4) == 3);", "cloud = cloud(idx, 1:3);"]
    else if ftype == "txt" then
      ["fn = '" + absPath + "';", "data = dlmread(fn, ' ', 0, 0);", "cloud = data(:, 1:3);"]
    else []
  }

  /** A ply tree loads its label-3 points, a txt tree its first three columns, any other type nothing. */
  lemma CloudLinesByType(dir: string, front: string, ext: string, absPath: string)
    requires '.' !in ext && '/' !in front && '/' !in ext
    ensures var lines := CloudLines(FileType(dir + "/" + front + "." + ext), absPath);
      (ext == "ply" ==> |lines| == 3 && lines[0] == "cloud = read_ply('" + absPath + "');"
                        && lines[1] == "idx = (cloud(:, 4) == 3);")
      && (ext == "txt" ==> |lines| == 3 && lines[0] == "fn = '" + absPath + "';"
                           && lines[1] == "data = dlmread(fn, ' ', 0, 0);")
      && (ext != "ply" && ext != "txt" ==> lines == [])
  {
    FileTypeIsExtension(dir, front, ext);
    CloudLinesOf(ext, absPath);
  }

  lemma CloudLinesOf(ftype: string, absPath: string)
    ensures var lines := CloudLines(ftype, absPath);
      (ftype == "ply" ==> |lines| == 3 && lines[0] == "cloud = read_ply('" + absPath + "');"
                          && lines[1] == "idx = (cloud(:, 4) == 3);")
      && (ftype == "txt" ==> |lines| == 3 && lines[0] == "fn = '" + absPath + "';"
                             && lines[1] == "data = dlmread(fn, ' ', 0, 0);")
  {
  }

  /** `f'{name}_{fn}.m'`. */
  function ScriptName(name: string, fn: int): string
  {
    name + "_" + Decimal(fn) + ".m"
  }

  /** Different file numbers give different script names. */
  lemma ScriptNamesDistinct(name: string, a: int, b: int)
    requires a != b
    ensures ScriptName(name, a) != ScriptName(name, b)
  {
    if ScriptName(name, a) == ScriptName(name, b) {
      var sa, sb := ScriptName(name, a), ScriptName(name, b);
      assert |Decimal(a)| == |Decimal(b)|;
      assert sa[|name| + 1..|sa| - 2] == Decimal(a);
      assert sb[|name| + 1..|sb| - 2] == Decimal(b);
      DecimalParses(a);
      DecimalParses(b);
    }
  }

  /** `int(0 if i == 0 else i / n_models)`: true division, then truncation. */
  function FileNumber(i: int, n: int): int
    requires i == 0 || n != 0
  {
    if i == 0 then 0 else Trunc(i as real / n as real)
  }

  /** After `q` combinations the counter is `q * n`, whose file number is `q` (or 0 when `n` is 0). */
  lemma FileNumberOfCounter(q: nat, n: int)
    ensures q * n == 0 || n != 0
    ensures FileNumber(q * n, n) == if n == 0 then 0 else q
  {
    if n != 0 && q != 0 {
      assert (q * n) as real == q as real * n as real;
      assert (q * n) as real / n as real == q as real;
    }
  }

  /** The script written for combination `q` (0..124) of a tree. */
  function Expected(dir: string, name: string, cloud: seq<string>, n: int, q: nat): Event
  {
    WriteFile(dir, ScriptName(name, if n == 0 then 0 else q),
              Script(q / 25, q / 5 % 5, q % 5, cloud, q * n, q * n + n - 1))
  }

  /** All 125 scripts of a tree, in loop order. */
  function Scripts(dir: string, name: string, cloud: seq<string>, n: int): (ws: seq<Event>)
    ensures |ws| == 125
  {
    seq(125, q requires 0 <= q => Expected(dir, name, cloud, n, q))
  }

  /** The script of combination (a, b, c) is the one the counter's value at that point selects. */
  lemma CombinationStep(dir: string, name: string, cloud: seq<string>, n: int, a: nat, b: nat, c: nat)
    requires a < 5 && b < 5 && c < 5
    ensures var q := 25 * a + 5 * b + c;
      (q * n == 0 || n != 0)
      && Expected(dir, name, cloud, n, q)
         == WriteFile(dir, ScriptName(name, FileNumber(q * n, n)), Script(a, b, c, cloud, q * n, q * n + n - 1))
      && (q + 1) * n == q * n + n
  {
    var q := 25 * a + 5 * b + c;
    FileNumberOfCounter(q, n);
    BaseFiveDigits(a, b, c);
    MulSucc(q, n);
  }

  /** The loop counter `25 * a + 5 * b + c` gives back `a`, `b` and `c` as its base-5 digits. */
  lemma BaseFiveDigits(a: nat, b: nat, c: nat)
    requires a < 5 && b < 5 && c < 5
    ensures var q := 25 * a + 5 * b + c;
      q / 25 == a && q / 5 % 5 == b && q % 5 == c
  {
    var q := 25 * a + 5 * b + c;
    DivMod(q, 25, a, 5 * b + c);
    DivMod(q, 5, 5 * a + b, c);
    DivMod(5 * a + b, 5, a, b);
  }

  lemma MulSucc(q: int, n: int)
    ensures (q + 1) * n == q * n + n
  {
  }

  /** Quotient and remainder of `x` by a positive `d`, from any decomposition `x == k * d + r` with `0 <= r < d`. */
  lemma DivMod(x: int, d: int, k: int, r: int)
    requires d > 0 && 0 <= r < d && x == k * d + r
    ensures x / d == k && x % d == r
  {
    var k', r' := x / d, x % d;
    assert x == k' * d + r';
    if k' < k {
      MulSub(k, k', d);
      MulAtLeast(k - k', d);
    } else if k' > k {
      MulSub(k', k, d);
      MulAtLeast(k' - k, d);
    }
  }

  lemma MulSub(a: int, b: int, d: int)
    ensures (a - b) * d == a * d - b * d
  {
  }

  lemma MulAtLeast(m: int, d: int)
    requires m >= 1 && d > 0
    ensures m * d >= d
  {
    MulMonotone(1, m, d);
  }

  /** The triple loop over the parameter values of one tree. */
  method TreeScripts(dir: string, name: string, cloud: seq<string>, n: int) returns (writes: seq<Event>)
    ensures writes == Scripts(dir, name, cloud, n)
  {
    writes := [];
    var i := 0;
    var a := 0;
    while a < 5
      invariant 0 <= a <= 5 && |writes| == 25 * a && i == |writes| * n
      invariant forall q :: 0 <= q < |writes| ==> writes[q] == Expected(dir, name, cloud, n, q)
    {
      var b := 0;
      while b < 5
        invariant 0 <= b <= 5 && |writes| == 25 * a + 5 * b && i == |writes| * n
        invariant forall q :: 0 <= q < |writes| ==> writes[q] == Expected(dir, name, cloud, n, q)
      {
        var c := 0;
        while c < 5
          invariant 0 <= c <= 5 && |writes| == 25 * a + 5 * b + c && i == |writes| * n
          invariant forall q :: 0 <= q < |writes| ==> writes[q] == Expected(dir, name, cloud, n, q)
        {
          CombinationStep(dir, name, cloud, n, a, b, c);
          var fn := FileNumber(i, n);
          writes := writes + [WriteFile(dir, ScriptName(name, fn), Script(a, b, c, cloud, i, i + n - 1))];
          i := i + n;
          c := c + 1;
        }
        b := b + 1;
      }
      a := a + 1;
    }
  }

  /** With n ≥ 1, combination q is written to `name_q.m`, so no two combinations share a file. */
  lemma ScriptFilesDistinct(dir: string, name: string, cloud: seq<string>, n: int, p: nat, q: nat)
    requires n != 0 && p < q < 125
    ensures Scripts(dir, name, cloud, n)[q].file == ScriptName(name, q)
    ensures Scripts(dir, name, cloud, n)[p].file != Scripts(dir, name, cloud, n)[q].file
  {
    ScriptNamesDistinct(name, p, q);
  }

  /** With n = 0 every combination overwrites `name_0.m`, and its model loop `0:-1` is empty. */
  lemma ZeroModelsOverwrite(dir: string, name: string, cloud: seq<string>, q: nat)
    requires q < 125
    ensures var w := Scripts(dir, name, cloud, 0)[q];
      w.file == ScriptName(name, 0) && w.script.first == 0 && w.script.last == -1
  {
  }

  /** Consecutive model blocks are adjacent: the first starts at 0 and each starts right after the previous one ends. */
  lemma ModelBlocksAdjacent(dir: string, name: string, cloud: seq<string>, n: int)
    ensures var ws := Scripts(dir, name, cloud, n);
      ws[0].script.first == 0 && ws[124].script.last == 125 * n - 1
      && forall q :: 0 <= q < 124 ==> ws[q].script.last + 1 == ws[q + 1].script.first
  {
    var ws := Scripts(dir, name, cloud, n);
    forall q | 0 <= q < 124 ensures ws[q].script.last + 1 == ws[q + 1].script.first {
      assert (q + 1) * n == q * n + n;
    }
  }

  /** With n ≥ 1, blocks of different combinations do not overlap. */
  lemma ModelBlocksDisjoint(dir: string, name: string, cloud: seq<string>, n: int, p: nat, q: nat)
    requires n >= 1 && p < q < 125
    ensures Scripts(dir, name, cloud, n)[p].script.last < Scripts(dir, name, cloud, n)[q].script.first
  {
    assert q * n >= (p + 1) * n by {
      MulMonotone(p + 1, q, n);
    }
    assert (p + 1) * n == p * n + n;
  }

  lemma MulMonotone(x: nat, y: nat, n: nat)
    requires x <= y
    ensures x * n <= y * n
  {
  }

  /** With n ≥ 1, every model index 0 .. 125·n − 1 lies in the block of combination `m / n`. */
  lemma ModelBlocksCover(dir: string, name: string, cloud: seq<string>, n: int, m: int)
    requires n >= 1 && 0 <= m < 125 * n
    ensures var q := m / n; var ws := Scripts(dir, name, cloud, n);
      0 <= q < 125 && ws[q].script.first <= m <= ws[q].script.last
  {
    var q := m / n;
    assert m == q * n + m % n;
    if q >= 125 {
      MulMonotone(125, q, n);
    }
  }

  /** The events for one tree: its sub-directory, then its 125 scripts. */
  function TreeEvents(outputPath: string, t: Tree, n: int): seq<Event>
  {
    var name := Stem(t.path);
    var subdir := PathJoin(outputPath, name);
    [MakeDir(subdir)] + Scripts(subdir, name, CloudLines(FileType(t.path), t.absPath), n)
  }

  /** The body of the loop over trees, for a tree whose file exists. */
  method GenerateTree(outputPath: string, tree: Tree, n: int) returns (events: seq<Event>)
    ensures events == TreeEvents(outputPath, tree, n)
  {
    var name := Stem(tree.path);
    var ftype := FileType(tree.path);
    var subdir := PathJoin(outputPath, name);
    var scripts := TreeScripts(subdir, name, CloudLines(ftype, tree.absPath), n);
    events := [MakeDir(subdir)] + scripts;
  }

  /** The events for a list of trees, in order. */
  function AllEvents(outputPath: string, trees: seq<Tree>, n: int): (es: seq<Event>)
    ensures |es| == 126 * |trees|
  {
    if trees == [] then []
    else AllEvents(outputPath, trees[..|trees| - 1], n) + TreeEvents(outputPath, trees[|trees| - 1], n)
  }

  /** Index of the first tree from `from` on whose file does not exist, or the number of trees. */
  function FirstMissingFrom(trees: seq<Tree>, from: nat): (m: nat)
    requires from <= |trees|
    ensures from <= m <= |trees|
    decreases |trees| - from
  {
    if from == |trees| || !trees[from].present then from
    else FirstMissingFrom(trees, from + 1)
  }

  /** Index of the first tree whose file does not exist, or the number of trees. */
  function FirstMissing(trees: seq<Tree>): (m: nat)
    ensures m <= |trees|
  {
    FirstMissingFrom(trees, 0)
  }

  /** Every tree from `from` up to the first missing one is present, and the first missing one is not. */
  lemma {:induction false} FirstMissingFromSpec(trees: seq<Tree>, from: nat)
    requires from <= |trees|
    ensures var m := FirstMissingFrom(trees, from);
      (forall j :: from <= j < m ==> trees[j].present) && (m < |trees| ==> !trees[m].present)
    decreases |trees| - from
  {
    if from < |trees| && trees[from].present {
      FirstMissingFromSpec(trees, from + 1);
    }
  }

  /**
   * `generate_inputs`: trees are processed in order; the first missing file
   * raises before its sub-directory or any of its scripts is created, so what
   * was done is exactly the work for the trees before it.
   */
  method GenerateInputs(trees: seq<Tree>, outputPath: string, n: int)
    returns (events: seq<Event>, error: Option<string>)
    ensures var m := FirstMissing(trees);
      events == AllEvents(outputPath, trees[..m], n)
      && error == (if m < |trees| then Some(trees[m].path + " does not exist!") else None)
  {
    events := [];
    var t := 0;
    while t < |trees|
      invariant 0 <= t <= |trees|
      invariant FirstMissing(trees) == FirstMissingFrom(trees, t)
      invariant events == AllEvents(outputPath, trees[..t], n)
    {
      var tree := trees[t];
      if !tree.present {
        error := Some(tree.path + " does not exist!");
        return;
      }
      events := GenerateNext(outputPath, trees, t, n, events);
      t := t + 1;
    }
    assert trees[..|trees|] == trees;
    error := None;
  }

  /** The first missing tree is the one after an unbroken run of present trees. */
  lemma FirstMissingIs(trees: seq<Tree>, t: nat)
    requires t <= |trees|
    requires forall j :: 0 <= j < t ==> trees[j].present
    requires t == |trees| || !trees[t].present
    ensures FirstMissing(trees) == t
  {
    FirstMissingFromSpec(trees, 0);
  }

  /** One pass of the loop over trees: the next tree's work is appended. */
  method GenerateNext(outputPath: string, trees: seq<Tree>, t: nat, n: int, events: seq<Event>)
    returns (next: seq<Event>)
    requires t < |trees| && events == AllEvents(outputPath, trees[..t], n)
    ensures next == AllEvents(outputPath, trees[..t + 1], n)
  {
    var treeEvents := GenerateTree(outputPath, trees[t], n);
    next := events + treeEvents;
    AllEventsStep(outputPath, trees, t, n);
  }

  lemma AllEventsStep(outputPath: string, trees: seq<Tree>, t: nat, n: int)
    requires t < |trees|
    ensures AllEvents(outputPath, trees[..t + 1], n) == AllEvents(outputPath, trees[..t], n) + TreeEvents(outputPath, trees[t], n)
  {
    assert trees[..t + 1][..t] == trees[..t];
  }
}

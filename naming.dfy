/**
 * Output names derived from input paths in tile_index.py and downsample.py:
 * the tile name written to the tile index is the input's stem, and the
 * down-sampled cloud goes to the output directory under the input's file
 * name with every ".ply" replaced by ".downsample.ply".
 */
module Naming {
  import opened Text

  /** `os.path.split(ply)[1].split('.')[0]`, the tile name written to the tile index. */
  function TileIndexName(ply: string): string
  {
    Stem(ply)
  }

  /** A tile file `dir/stem.ext…` is indexed under `stem`, which never holds a '.' or a '/'. */
  lemma TileIndexNameIsStem(dir: string, stem: string, rest: string)
    requires '.' !in stem && '/' !in stem && '/' !in rest
    ensures TileIndexName(dir + "/" + stem + "." + rest) == stem
    ensures '.' !in TileIndexName(dir + "/" + stem + "." + rest)
  {
    StemOf(dir, stem, rest);
  }

  /** `os.path.join(odir, os.path.split(ply)[1].replace('.ply', '.downsample.ply'))`. */
  function DownsampleOutput(odir: string, ply: string): string
  {
    PathJoin(odir, ReplaceAll(Basename(ply), ".ply", ".downsample.ply"))
  }

  /** Only the input's file name matters: inputs with the same file name in different directories share an output. */
  lemma DownsampleIgnoresInputDirectory(odir: string, dir1: string, dir2: string, name: string)
    requires '/' !in name
    ensures DownsampleOutput(odir, dir1 + "/" + name) == DownsampleOutput(odir, dir2 + "/" + name)
    ensures DownsampleOutput(odir, dir1 + "/" + name) == DownsampleOutput(odir, name)
  {
    AfterLastOf(dir1, '/', name);
    AfterLastOf(dir2, '/', name);
    assert dir1 + "/" + name == dir1 + ['/'] + name;
    assert dir2 + "/" + name == dir2 + ['/'] + name;
    AfterLastWhole(name, '/');
  }

  /** A name without '/' is its own base name. */
  lemma {:induction false} AfterLastWhole(s: string, c: char)
    requires c !in s
    ensures AfterLast(s, c) == s
    decreases |s|
  {
    if s != [] {
      AfterLastWhole(s[..|s| - 1], c);
      assert s == s[..|s| - 1] + [s[|s| - 1]];
    }
  }

  /** In a name `stem.ply` with no '.' in `stem`, the only ".ply" is the final one. */
  lemma RenamePly(stem: string)
    requires '.' !in stem
    ensures ReplaceAll(stem + ".ply", ".ply", ".downsample.ply") == stem + ".downsample.ply"
  {
    ReplaceSkips(stem, ".ply", ".ply", ".downsample.ply");
    assert ReplaceAll(".ply", ".ply", ".downsample.ply") == ".downsample.ply" by {
      ReplaceAtStart(".ply", "", ".downsample.ply");
      assert ".ply" + "" == ".ply";
    }
  }

  /** `dir/stem.ply`, with no '.' in `stem`, is written as `odir` joined with `stem.downsample.ply`. */
  lemma DownsampleOfPly(odir: string, dir: string, stem: string)
    requires '.' !in stem && '/' !in stem
    ensures DownsampleOutput(odir, dir + "/" + stem + ".ply") == PathJoin(odir, stem + ".downsample.ply")
    ensures odir != [] && odir[|odir| - 1] != '/' ==>
      DownsampleOutput(odir, dir + "/" + stem + ".ply") == odir + "/" + stem + ".downsample.ply"
  {
    var name := stem + ".ply";
    assert '/' !in name;
    assert dir + "/" + stem + ".ply" == dir + ['/'] + name;
    AfterLastOf(dir, '/', name);
    RenamePly(stem);
  }
}

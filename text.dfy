/**
 * The few Python string operations the scripts rely on, with Python's
 * semantics: `str.replace` (every non-overlapping occurrence, scanning
 * left to right), `in`, `split(c)[0]`, `split(c)[-1]`, `os.path.basename`,
 * `os.path.join` and the ordering `<=` on strings.
 */
module Text {

  /** `pat` occurs in `s` at position `i`. */
  predicate OccursAt(s: string, pat: string, i: nat)
  {
    i + |pat| <= |s| && s[i..i + |pat|] == pat
  }

  /** Python's `pat in s`. */
  predicate Contains(s: string, pat: string)
    decreases |s|
  {
    if |s| < |pat| then false
    else s[..|pat|] == pat || Contains(s[1..], pat)
  }

  lemma {:induction false} ContainsIffOccurs(s: string, pat: string)
    ensures Contains(s, pat) <==> exists i: nat :: OccursAt(s, pat, i)
    decreases |s|
  {
    if |s| < |pat| {
      forall i: nat ensures !OccursAt(s, pat, i) { }
    } else if s[..|pat|] == pat {
      assert OccursAt(s, pat, 0);
    } else {
      ContainsIffOccurs(s[1..], pat);
      if Contains(s[1..], pat) {
        var i: nat :| OccursAt(s[1..], pat, i);
        assert s[i + 1..i + 1 + |pat|] == s[1..][i..i + |pat|];
        assert OccursAt(s, pat, i + 1);
      } else {
        forall i: nat | OccursAt(s, pat, i) ensures false {
          if i > 0 {
            assert s[1..][i - 1..i - 1 + |pat|] == s[i..i + |pat|];
            assert OccursAt(s[1..], pat, i - 1);
          }
        }
      }
    }
  }

  /** Python's `s.replace(pat, rep)` for a non-empty `pat`. */
  function ReplaceAll(s: string, pat: string, rep: string): string
    requires |pat| > 0
    decreases |s|
  {
    if |s| < |pat| then s
    else if s[..|pat|] == pat then rep + ReplaceAll(s[|pat|..], pat, rep)
    else [s[0]] + ReplaceAll(s[1..], pat, rep)
  }

  /** Replacing a one-character pattern by text without it removes every occurrence. */
  lemma {:induction false} ReplaceRemovesChar(s: string, c: char, rep: string)
    requires c !in rep
    ensures c !in ReplaceAll(s, [c], rep)
    decreases |s|
  {
    if |s| >= 1 {
      ReplaceRemovesChar(s[1..], c, rep);
      if s[..1] != [c] {
        assert s[0] != c by { assert s[..1] == [s[0]]; }
      }
    }
  }

  /** Replacing never introduces a character absent from both the text and the replacement. */
  lemma {:induction false} ReplaceKeepsAbsent(s: string, pat: string, rep: string, c: char)
    requires |pat| > 0 && c !in s && c !in rep
    ensures c !in ReplaceAll(s, pat, rep)
    decreases |s|
  {
    if |s| >= |pat| {
      if s[..|pat|] == pat {
        ReplaceKeepsAbsent(s[|pat|..], pat, rep, c);
      } else {
        ReplaceKeepsAbsent(s[1..], pat, rep, c);
      }
    }
  }

  /** Text without the pattern is left unchanged. */
  lemma {:induction false} ReplaceAbsent(s: string, pat: string, rep: string)
    requires |pat| > 0 && !Contains(s, pat)
    ensures ReplaceAll(s, pat, rep) == s
    decreases |s|
  {
    if |s| >= |pat| {
      ReplaceAbsent(s[1..], pat, rep);
    }
  }

  /** An occurrence at the very start is replaced, and the scan goes on after it. */
  lemma ReplaceAtStart(pat: string, rest: string, rep: string)
    requires |pat| > 0
    ensures ReplaceAll(pat + rest, pat, rep) == rep + ReplaceAll(rest, pat, rep)
  {
    assert (pat + rest)[..|pat|] == pat;
    assert (pat + rest)[|pat|..] == rest;
  }

  /** A leading stretch without the pattern's first character is copied unchanged. */
  lemma {:induction false} ReplaceSkips(lead: string, tail: string, pat: string, rep: string)
    requires |pat| > 0 && pat[0] !in lead
    ensures ReplaceAll(lead + tail, pat, rep) == lead + ReplaceAll(tail, pat, rep)
    decreases |lead|
  {
    if lead == [] {
      assert lead + tail == tail;
    } else {
      var s := lead + tail;
      assert s[0] == lead[0];
      assert s[1..] == lead[1..] + tail;
      assert lead == [lead[0]] + lead[1..];
      if |s| < |pat| {
        assert ReplaceAll(tail, pat, rep) == tail;
        assert ReplaceAll(s, pat, rep) == s;
      } else {
        assert s[..|pat|][0] != pat[0];
        ReplaceSkips(lead[1..], tail, pat, rep);
        calc {
          ReplaceAll(s, pat, rep);
          [s[0]] + ReplaceAll(s[1..], pat, rep);
          [lead[0]] + (lead[1..] + ReplaceAll(tail, pat, rep));
          ([lead[0]] + lead[1..]) + ReplaceAll(tail, pat, rep);
        }
      }
    }
  }

  /** `str.replace(pat, '')`, which leaves the text alone when `pat` is empty. */
  function RemoveAll(s: string, pat: string): string
  {
    if pat == [] then s else ReplaceAll(s, pat, [])
  }

  /** Python's `s.split(c)[0]`: the text before the first `c`. */
  function BeforeFirst(s: string, c: char): (r: string)
    ensures |r| <= |s| && r == s[..|r|]
    ensures c !in r
    ensures |r| < |s| ==> s[|r|] == c
  {
    if s == [] then []
    else if s[0] == c then []
    else [s[0]] + BeforeFirst(s[1..], c)
  }

  /** Python's `s.split(c)[-1]`: the text after the last `c`. */
  function AfterLast(s: string, c: char): (r: string)
    ensures |r| <= |s| && r == s[|s| - |r|..]
    ensures c !in r
    ensures |r| < |s| ==> s[|s| - |r| - 1] == c
  {
    if s == [] then []
    else if s[|s| - 1] == c then []
    else AfterLast(s[..|s| - 1], c) + [s[|s| - 1]]
  }

  /** Everything before the first `c` of `a + [c] + b`, when `a` has none, is `a`. */
  lemma {:induction false} BeforeFirstOf(a: string, c: char, b: string)
    requires c !in a
    ensures BeforeFirst(a + [c] + b, c) == a
    decreases |a|
  {
    if a != [] {
      assert (a + [c] + b)[1..] == a[1..] + [c] + b;
      BeforeFirstOf(a[1..], c, b);
      assert a == [a[0]] + a[1..];
    }
  }

  /** Everything after the last `c` of `a + [c] + b`, when `b` has none, is `b`. */
  lemma {:induction false} AfterLastOf(a: string, c: char, b: string)
    requires c !in b
    ensures AfterLast(a + [c] + b, c) == b
    decreases |b|
  {
    var s := a + [c] + b;
    if b != [] {
      var b' := b[..|b| - 1];
      assert s[..|s| - 1] == a + [c] + b';
      AfterLastOf(a, c, b');
      assert b == b' + [b[|b| - 1]];
    }
  }

  /** A character absent from a text is absent from each of its suffixes. */
  lemma SuffixAvoids(s: string, i: nat, c: char)
    requires i <= |s| && c !in s
    ensures c !in s[i..]
  {
    forall k | 0 <= k < |s| - i ensures s[i..][k] != c {
      assert s[i..][k] == s[i + k];
    }
  }

  /** `os.path.basename`: the text after the last '/'. */
  function Basename(path: string): string
  {
    AfterLast(path, '/')
  }

  /** `os.path.basename(path).split('.')[0]`: the file name up to its first '.'. */
  function Stem(path: string): (stem: string)
    ensures '.' !in stem && '/' !in stem
  {
    var base := Basename(path);
    var stem := BeforeFirst(base, '.');
    assert forall k :: 0 <= k < |stem| ==> stem[k] == base[k];
    stem
  }

  /** For `dir/stem.rest` with no '.' in `stem` and no '/' after `dir`, the stem is `stem`. */
  lemma StemOf(dir: string, stem: string, rest: string)
    requires '.' !in stem && '/' !in stem && '/' !in rest
    ensures Stem(dir + "/" + stem + "." + rest) == stem
  {
    var base := stem + "." + rest;
    assert '/' !in base;
    assert dir + "/" + stem + "." + rest == dir + ['/'] + base;
    AfterLastOf(dir, '/', base);
    assert base == stem + ['.'] + rest;
    BeforeFirstOf(stem, '.', rest);
  }

  /** `os.path.join(dir, name)` on POSIX. */
  function PathJoin(dir: string, name: string): string
  {
    if |name| > 0 && name[0] == '/' then name
    else if dir == [] || dir[|dir| - 1] == '/' then dir + name
    else dir + "/" + name
  }

  /** An absolute name replaces the directory. */
  lemma PathJoinAbsolute(dir: string, name: string)
    requires |name| > 0 && name[0] == '/'
    ensures PathJoin(dir, name) == name
  {
  }

  /**
   * A relative name follows the directory, with one `/` between them unless
   * the directory is empty or already ends in `/`.
   */
  lemma PathJoinRelative(dir: string, name: string)
    requires |name| == 0 || name[0] != '/'
    ensures var p := PathJoin(dir, name);
      |dir| + |name| <= |p| <= |dir| + |name| + 1 && p[..|dir|] == dir && p[|p| - |name|..] == name
    ensures dir != [] ==> PathJoin(dir, name)[|PathJoin(dir, name)| - |name| - 1] == '/'
    ensures dir == [] ==> PathJoin(dir, name) == name
  {
    var p := PathJoin(dir, name);
    if dir == [] || dir[|dir| - 1] == '/' {
      assert p == dir + name;
    } else {
      assert p == dir + "/" + name;
    }
  }

  /** Python's `a <= b` on strings: code-point lexicographic order. */
  predicate LexLe(a: string, b: string)
    decreases |a|
  {
    if a == [] then true
    else if b == [] then false
    else if a[0] != b[0] then a[0] < b[0]
    else LexLe(a[1..], b[1..])
  }

  lemma {:induction false} LexLeReflexive(a: string)
    ensures LexLe(a, a)
    decreases |a|
  {
    if a != [] {
      LexLeReflexive(a[1..]);
    }
  }

  lemma {:induction false} LexLeTotal(a: string, b: string)
    ensures LexLe(a, b) || LexLe(b, a)
    decreases |a|
  {
    if a != [] && b != [] && a[0] == b[0] {
      LexLeTotal(a[1..], b[1..]);
    }
  }

  lemma {:induction false} LexLeTransitive(a: string, b: string, c: string)
    requires LexLe(a, b) && LexLe(b, c)
    ensures LexLe(a, c)
    decreases |a|
  {
    if a != [] && b != [] && c != [] && a[0] == b[0] && b[0] == c[0] {
      LexLeTransitive(a[1..], b[1..], c[1..]);
    }
  }
}

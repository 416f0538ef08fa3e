/**
 * The line database: matches a path recorded on the build machine to one of
 * the local code files by counting equal trailing path components, records
 * the first address of each (file, line) pair and answers whether exactly
 * one function starts inside a line range.
 *
 * Paths are given as their components (`PurePath.parts`); splitting a path
 * string into components is not modelled.
 */
module Lines {
  import opened Wrappers
  import opened Order

  /** A path as its components. */
  type Parts = seq<string>

  /** A build-machine (Windows) path and whether it has both a drive and a root. */
  datatype WinPath = WinPath(parts: Parts, absolute: bool)

  /** The final component, `path.name`. */
  function Name(p: Parts): string
  {
    if |p| == 0 then "" else p[|p| - 1]
  }

  /** The key of the `filenames` table: the lowercased final component. */
  function NameKey(p: Parts): string
  {
    Lower(Name(p))
  }

  /** path_to_reverse_parts: the lowercased components, last first. */
  function ReverseParts(p: Parts): (r: Parts)
    ensures |r| == |p|
    ensures forall i :: 0 <= i < |p| ==> r[i] == Lower(p[|p| - 1 - i])
  {
    seq(|p|, i requires 0 <= i < |p| => Lower(p[|p| - 1 - i]))
  }

  /**
   * The number of equal leading components of `a` and `b`, stopping at the
   * first mismatch or at a `..` component.
   */
  function Score(a: Parts, b: Parts): (n: nat)
    ensures n <= |a| && n <= |b|
    ensures forall i :: 0 <= i < n ==> a[i] == b[i] && a[i] != ".."
    ensures n < |a| && n < |b| ==> a[n] != b[n] || a[n] == ".."
  {
    if |a| == 0 || |b| == 0 || a[0] != b[0] || a[0] == ".." then 0
    else 1 + Score(a[1..], b[1..])
  }

  /** score_match: walk both reversed component lists in step, counting equal pairs. */
  method ScoreMatch(pure: WinPath, path: Parts) returns (score: nat, p: Parts)
    ensures score == Score(ReverseParts(pure.parts), ReverseParts(path)) && p == path
    ensures score <= |pure.parts| && score <= |path|
  {
    var a := ReverseParts(pure.parts);
    var b := ReverseParts(path);
    score := 0;
    while score < |a| && score < |b|
      invariant score <= |a| && score <= |b|
      invariant Score(a, b) == score + Score(a[score..], b[score..])
      decreases |a| - score
    {
      if a[score] != b[score] || a[score] == ".." || b[score] == ".." {
        break;
      }
      assert a[score..][1..] == a[score + 1..] && b[score..][1..] == b[score + 1..];
      score := score + 1;
    }
    p := path;
  }

  /** Python's `<` on tuples of strings: lexicographic by component. */
  predicate PartsLess(a: Parts, b: Parts)
    decreases |a|
  {
    if |a| == 0 then |b| > 0
    else if |b| == 0 then false
    else if a[0] != b[0] then StrLess(a[0], b[0])
    else PartsLess(a[1..], b[1..])
  }

  lemma {:induction false} PartsLessTotal(a: Parts, b: Parts)
    ensures a == b || PartsLess(a, b) || PartsLess(b, a)
    decreases |a|
  {
    if |a| > 0 && |b| > 0 {
      if a[0] != b[0] {
        StrLessTotal(a[0], b[0]);
      } else {
        PartsLessTotal(a[1..], b[1..]);
        if a[1..] == b[1..] { assert a == [a[0]] + a[1..] && b == [b[0]] + b[1..]; }
      }
    }
  }

  lemma {:induction false} PartsLessAsymmetric(a: Parts, b: Parts)
    requires PartsLess(a, b)
    ensures !PartsLess(b, a)
    decreases |a|
  {
    if |a| > 0 && |b| > 0 {
      if a[0] != b[0] {
        StrLessAsymmetric(a[0], b[0]);
      } else {
        PartsLessAsymmetric(a[1..], b[1..]);
      }
    }
  }

  lemma {:induction false} PartsLessTransitive(a: Parts, b: Parts, c: Parts)
    requires PartsLess(a, b) && PartsLess(b, c)
    ensures PartsLess(a, c)
    decreases |a|
  {
    if |a| > 0 {
      if a[0] != b[0] {
        if b[0] != c[0] {
          StrLessTransitive(a[0], b[0], c[0]);
          if a[0] == c[0] { StrLessIrreflexive(a[0]); }
        }
      } else if b[0] == c[0] {
        PartsLessTransitive(a[1..], b[1..], c[1..]);
      }
    }
  }

  /** The sort key of score_match's result: the score, then the path. */
  function Rank(pure: WinPath, p: Parts): (nat, Parts)
  {
    (Score(ReverseParts(pure.parts), ReverseParts(p)), p)
  }

  predicate RankLess(x: (nat, Parts), y: (nat, Parts))
  {
    x.0 < y.0 || (x.0 == y.0 && PartsLess(x.1, y.1))
  }

  /** The first element of the candidates sorted by descending rank. */
  function Best(pure: WinPath, paths: seq<Parts>): (r: Parts)
    requires |paths| > 0
    ensures r in paths
  {
    if |paths| == 1 then paths[0]
    else
      var rest := Best(pure, paths[1..]);
      if RankLess(Rank(pure, paths[0]), Rank(pure, rest)) then rest else paths[0]
  }

  lemma {:induction false} BestIsMaximal(pure: WinPath, paths: seq<Parts>)
    requires |paths| > 0
    ensures forall q :: q in paths ==> !RankLess(Rank(pure, Best(pure, paths)), Rank(pure, q))
  {
    if |paths| > 1 {
      var rest := Best(pure, paths[1..]);
      BestIsMaximal(pure, paths[1..]);
      var h := paths[0];
      if !RankLess(Rank(pure, h), Rank(pure, rest)) {
        forall q | q in paths
          ensures !RankLess(Rank(pure, h), Rank(pure, q))
        {
          if q == h {
            RankIrreflexive(pure, h);
          } else {
            assert q in paths[1..];
            RankAntisymmetric(pure, h, rest, q);
          }
        }
      } else {
        forall q | q in paths
          ensures !RankLess(Rank(pure, rest), Rank(pure, q))
        {
          if q == h { RankAsymmetric(pure, h, rest); } else { assert q in paths[1..]; }
        }
      }
    } else {
      RankIrreflexive(pure, paths[0]);
    }
  }

  lemma RankIrreflexive(pure: WinPath, p: Parts)
    ensures !RankLess(Rank(pure, p), Rank(pure, p))
  {
    if PartsLess(p, p) { PartsLessAsymmetric(p, p); }
  }

  lemma RankAsymmetric(pure: WinPath, p: Parts, q: Parts)
    requires RankLess(Rank(pure, p), Rank(pure, q))
    ensures !RankLess(Rank(pure, q), Rank(pure, p))
  {
    if Rank(pure, p).0 == Rank(pure, q).0 { PartsLessAsymmetric(p, q); }
  }

  /** If `h` is not below `m` and `m` is not below `q`, then `h` is not below `q`. */
  lemma RankAntisymmetric(pure: WinPath, h: Parts, m: Parts, q: Parts)
    requires !RankLess(Rank(pure, h), Rank(pure, m)) && !RankLess(Rank(pure, m), Rank(pure, q))
    ensures !RankLess(Rank(pure, h), Rank(pure, q))
  {
    var sh, sm, sq := Rank(pure, h).0, Rank(pure, m).0, Rank(pure, q).0;
    if sh == sq && sh == sm {
      PartsLessTotal(h, m);
      PartsLessTotal(m, q);
      if PartsLess(h, q) {
        if h == m {
        } else if m == q {
        } else {
          PartsLessTransitive(m, h, q);
        }
      }
    }
  }

  /**
   * purepath_to_path: None for a relative path; otherwise the candidate with
   * the greatest (score, path) pair, whatever its score.
   */
  function PurepathToPath(pure: WinPath, paths: seq<Parts>): (r: Option<Parts>)
    requires |paths| > 0
    ensures r.None? <==> !pure.absolute
    ensures r.Some? ==> r.value in paths
    ensures r.Some? ==> forall q :: q in paths ==> !RankLess(Rank(pure, r.value), Rank(pure, q))
  {
    if !pure.absolute then None
    else
      BestIsMaximal(pure, paths);
      Some(Best(pure, paths))
  }

  /** The answer is the only candidate no other candidate outranks. */
  lemma PurepathToPathUnique(pure: WinPath, paths: seq<Parts>, p: Parts)
    requires |paths| > 0 && pure.absolute && p in paths
    requires forall q :: q in paths ==> !RankLess(Rank(pure, p), Rank(pure, q))
    ensures PurepathToPath(pure, paths) == Some(p)
  {
    var r := PurepathToPath(pure, paths).value;
    assert !RankLess(Rank(pure, r), Rank(pure, p));
    assert !RankLess(Rank(pure, p), Rank(pure, r));
    PartsLessTotal(p, r);
  }

  /** The `filenames` table built from the code files, in list order per key. */
  function Group(files: seq<Parts>): (g: map<string, seq<Parts>>)
    ensures forall k :: k in g ==> |g[k]| > 0
  {
    if files == [] then map[]
    else
      var g := Group(files[..|files| - 1]);
      var f := files[|files| - 1];
      var k := NameKey(f);
      g[k := (if k in g then g[k] else []) + [f]]
  }

  /** The code files whose lowercased name is `k`, in list order. */
  function Having(files: seq<Parts>, k: string): (r: seq<Parts>)
    ensures forall p :: p in r ==> p in files && NameKey(p) == k
  {
    if files == [] then []
    else Having(files[..|files| - 1], k) + (if NameKey(files[|files| - 1]) == k then [files[|files| - 1]] else [])
  }

  /** Each key of `filenames` lists exactly the code files of that name, in order. */
  lemma {:induction false} GroupIsFilter(files: seq<Parts>, k: string)
    ensures k in Group(files) <==> Having(files, k) != []
    ensures k in Group(files) ==> Group(files)[k] == Having(files, k)
  {
    if files != [] {
      GroupIsFilter(files[..|files| - 1], k);
    }
  }

  /** Where add_line files a line: the local file matching the build-machine path. */
  function Resolve(filenames: map<string, seq<Parts>>, cvpath: WinPath): (r: Option<Parts>)
    requires forall k :: k in filenames ==> |filenames[k]| > 0
    ensures r.Some? <==> NameKey(cvpath.parts) in filenames && cvpath.absolute
    ensures r.Some? ==> r.value in filenames[NameKey(cvpath.parts)]
  {
    var k := NameKey(cvpath.parts);
    if k !in filenames then None else PurepathToPath(cvpath, filenames[k])
  }

  /** `map.setdefault(path, {})[line] = addr`. */
  function Record(m: map<Parts, map<int, int>>, path: Parts, line: int, addr: int): (r: map<Parts, map<int, int>>)
    ensures r.Keys == m.Keys + {path}
    ensures line in r[path] && r[path][line] == addr
    ensures forall l :: l in r[path] && l != line ==> path in m && l in m[path] && r[path][l] == m[path][l]
    ensures forall p :: p in m && p != path ==> r[p] == m[p]
  {
    m[path := (if path in m then m[path] else map[])[line := addr]]
  }

  /** The recorded lines of a bucket that lie in [lo, hi]. */
  function InRange(bucket: map<int, int>, lo: int, hi: int): set<int>
  {
    set l | l in bucket && lo <= l <= hi
  }

  /**
   * search_line: the address of the one recorded line in [start, end]
   * (end defaults to start), or None when the file is unknown or the count
   * of lines in the range is not one.
   */
  function SearchLine(m: map<Parts, map<int, int>>, path: Parts, lineStart: int, lineEnd: Option<int>): (r: Option<int>)
    ensures path !in m ==> r.None?
    ensures r.Some? <==> path in m && |InRange(m[path], lineStart, lineEnd.GetOr(lineStart))| == 1
    ensures r.Some? ==> exists l :: l in InRange(m[path], lineStart, lineEnd.GetOr(lineStart)) && m[path][l] == r.value
  {
    if path !in m then None
    else
      var hits := InRange(m[path], lineStart, lineEnd.GetOr(lineStart));
      if |hits| != 1 then None
      else
        var l := SetMin(hits);
        Some(m[path][l])
  }

  /** An added line is found again by a search for that exact line. */
  lemma RecordThenSearch(m: map<Parts, map<int, int>>, path: Parts, line: int, addr: int)
    ensures SearchLine(Record(m, path, line, addr), path, line, None) == Some(addr)
  {
    var r := Record(m, path, line, addr);
    var hits := InRange(r[path], line, line);
    assert hits == {line} by {
      forall l | l in hits ensures l == line {}
    }
  }

  /** Recording a line in one file does not change searches in another. */
  lemma RecordKeepsOthers(m: map<Parts, map<int, int>>, path: Parts, line: int, addr: int,
                          other: Parts, lo: int, hi: Option<int>)
    requires other != path
    ensures SearchLine(Record(m, path, line, addr), other, lo, hi) == SearchLine(m, other, lo, hi)
  {
    var r := Record(m, path, line, addr);
    if other in m {
      assert r[other] == m[other];
    }
  }

  class LinesDb {
    const codeFiles: seq<Parts>
    var filenames: map<string, seq<Parts>>
    var lineMap: map<Parts, map<int, int>>

    ghost predicate Valid()
      reads this
    {
      forall k :: k in filenames ==> |filenames[k]| > 0
    }

    /** Group the code files by lowercased file name, keeping list order. */
    constructor(files: seq<Parts>)
      ensures Valid()
      ensures codeFiles == files && filenames == Group(files) && lineMap == map[]
    {
      codeFiles := files;
      var g: map<string, seq<Parts>> := map[];
      var i := 0;
      while i < |files|
        invariant 0 <= i <= |files|
        invariant g == Group(files[..i])
      {
        assert files[..i + 1][..i] == files[..i];
        var k := NameKey(files[i]);
        g := g[k := (if k in g then g[k] else []) + [files[i]]];
        i := i + 1;
      }
      assert files[..|files|] == files;
      filenames := g;
      lineMap := map[];
    }

    /**
     * add_line: file the address under the local path the build-machine path
     * resolves to; ignore it when no code file has that name or the path is
     * relative. A later address for the same line replaces the earlier one.
     */
    method AddLine(cvpath: WinPath, lineNo: int, addr: int)
      requires Valid()
      modifies this`lineMap
      ensures Valid()
      ensures Resolve(filenames, cvpath).None? ==> lineMap == old(lineMap)
      ensures Resolve(filenames, cvpath).Some? ==>
        lineMap == Record(old(lineMap), Resolve(filenames, cvpath).value, lineNo, addr)
    {
      var k := NameKey(cvpath.parts);
      if k !in filenames {
        return;
      }
      var sourcepath := PurepathToPath(cvpath, filenames[k]);
      if sourcepath.None? {
        return;
      }
      var bucket := if sourcepath.value in lineMap then lineMap[sourcepath.value] else map[];
      lineMap := lineMap[sourcepath.value := bucket[lineNo := addr]];
    }
  }
}

/**
 * The annotations of a whole code base for one module: the symbols each
 * file yields, read in sorted path order, and the two clean-up passes
 * that drop symbols with invalid or reused addresses.
 */
module Codebase {
  import opened Wrappers
  import opened Tokens
  import opened ParserSpec
  import opened Parser
  import opened PyDict
  import opened Order

  /** A file path as the sequence of its parts. */
  type Path = seq<string>

  // ---------------------------------------------------------------------
  // Path order
  // ---------------------------------------------------------------------

  /** Path order: the parts compared one by one as strings. */
  predicate PathLess(a: Path, b: Path)
    decreases |a|
  {
    if |a| == 0 then |b| > 0
    else if |b| == 0 then false
    else if a[0] != b[0] then StrLess(a[0], b[0])
    else PathLess(a[1..], b[1..])
  }

  lemma {:induction false} PathLessIrreflexive(a: Path)
    ensures !PathLess(a, a)
    decreases |a|
  {
    if |a| > 0 {
      PathLessIrreflexive(a[1..]);
    }
  }

  lemma {:induction false} PathLessTotal(a: Path, b: Path)
    ensures a == b || PathLess(a, b) || PathLess(b, a)
    decreases |a|
  {
    if |a| > 0 && |b| > 0 {
      if a[0] == b[0] {
        PathLessTotal(a[1..], b[1..]);
        if a[1..] == b[1..] {
          assert a == [a[0]] + a[1..] && b == [b[0]] + b[1..];
        }
      } else {
        StrLessTotal(a[0], b[0]);
      }
    }
  }

  lemma {:induction false} PathLessTransitive(a: Path, b: Path, c: Path)
    requires PathLess(a, b) && PathLess(b, c)
    ensures PathLess(a, c)
    decreases |a|
  {
    if |a| > 0 && |b| > 0 && |c| > 0 {
      var x, y, z := a[0], b[0], c[0];
      if x == y && y == z {
        PathLessTransitive(a[1..], b[1..], c[1..]);
      } else if x != y && y != z {
        if x == z {
          StrLessAsymmetric(x, y);
        } else {
          StrLessTransitive(x, y, z);
        }
      }
    }
  }

  predicate SortedPaths(s: seq<Path>) {
    forall i :: 0 <= i < |s| - 1 ==> PathLess(s[i], s[i + 1])
  }

  /** Puts p before the first path it precedes. */
  function InsertPath(p: Path, s: seq<Path>): (r: seq<Path>)
    ensures multiset(r) == multiset(s) + multiset{p}
    ensures |r| > 0 && (r[0] == p || (|s| > 0 && r[0] == s[0]))
  {
    if s == [] then [p]
    else if PathLess(p, s[0]) then [p] + s
    else
      assert s == [s[0]] + s[1..];
      [s[0]] + InsertPath(p, s[1..])
  }

  /** `sorted(paths)`. */
  function SortPaths(ps: seq<Path>): (r: seq<Path>)
    ensures multiset(r) == multiset(ps)
  {
    if ps == [] then []
    else
      assert ps == [ps[0]] + ps[1..];
      InsertPath(ps[0], SortPaths(ps[1..]))
  }

  lemma {:induction false} InsertPathSorted(p: Path, s: seq<Path>)
    requires SortedPaths(s) && p !in s
    ensures SortedPaths(InsertPath(p, s))
    decreases |s|
  {
    if s != [] && !PathLess(p, s[0]) {
      PathLessTotal(p, s[0]);
      assert p != s[0];
      assert SortedPaths(s[1..]);
      assert p !in s[1..];
      InsertPathSorted(p, s[1..]);
      var tail := InsertPath(p, s[1..]);
      assert tail[0] == p || tail[0] == s[1];
    }
  }

  /** Sorting distinct paths puts them in strictly increasing order. */
  lemma {:induction false} SortPathsSorted(ps: seq<Path>)
    requires forall i, j :: 0 <= i < j < |ps| ==> ps[i] != ps[j]
    ensures SortedPaths(SortPaths(ps))
    decreases |ps|
  {
    if ps != [] {
      SortPathsSorted(ps[1..]);
      assert ps[0] !in multiset(ps[1..]);
      assert ps[0] !in SortPaths(ps[1..]) by {
        assert multiset(SortPaths(ps[1..])) == multiset(ps[1..]);
      }
      InsertPathSorted(ps[0], SortPaths(ps[1..]));
    }
  }

  /** In a sorted sequence every earlier path precedes every later one. */
  lemma {:induction false} SortedPairwise(s: seq<Path>, i: int, j: int)
    requires SortedPaths(s) && 0 <= i < j < |s|
    ensures PathLess(s[i], s[j])
    decreases j - i
  {
    if j > i + 1 {
      SortedPairwise(s, i, j - 1);
      PathLessTransitive(s[i], s[j - 1], s[j]);
    }
  }

  // ---------------------------------------------------------------------
  // Filters
  // ---------------------------------------------------------------------

  /** The symbols satisfying f, in order. */
  function Where(syms: seq<Symbol>, f: Symbol -> bool): (r: seq<Symbol>)
    ensures forall x :: x in r <==> x in syms && f(x)
    ensures |r| <= |syms|
  {
    if syms == [] then []
    else Where(syms[..|syms| - 1], f) + (if f(syms[|syms| - 1]) then [syms[|syms| - 1]] else [])
  }

  /** A filter and its complement split the symbols between them. */
  lemma {:induction false} WhereSplits(syms: seq<Symbol>, f: Symbol -> bool, g: Symbol -> bool)
    requires forall x :: x in syms ==> g(x) == !f(x)
    ensures multiset(Where(syms, f)) + multiset(Where(syms, g)) == multiset(syms)
    decreases |syms|
  {
    if syms != [] {
      var init, x := syms[..|syms| - 1], syms[|syms| - 1];
      assert syms == init + [x];
      assert forall y :: y in init ==> y in syms;
      WhereSplits(init, f, g);
      if f(x) {
        assert Where(syms, f) == Where(init, f) + [x];
        assert Where(syms, g) == Where(init, g);
      } else {
        assert Where(syms, f) == Where(init, f);
        assert Where(syms, g) == Where(init, g) + [x];
      }
    }
  }

  predicate IsLineFunction(s: Symbol) { s.PFunction? && !s.lookupByName }
  predicate IsNameFunction(s: Symbol) { s.PFunction? && s.lookupByName }
  predicate IsVtable(s: Symbol) { s.PVtable? }
  predicate IsVariable(s: Symbol) { s.PVariable? }
  predicate IsString(s: Symbol) { s.PString? }

  /** Functions found by line and functions found by name split the functions between them. */
  lemma LineAndNameFunctions(syms: seq<Symbol>)
    ensures multiset(Where(syms, IsLineFunction)) + multiset(Where(syms, IsNameFunction))
         == multiset(Where(syms, (s: Symbol) => s.PFunction?))
  {
  }

  lemma {:induction false} WhereOfWhere(syms: seq<Symbol>, f: Symbol -> bool, g: Symbol -> bool)
    requires forall x :: g(x) ==> f(x)
    ensures Where(Where(syms, f), g) == Where(syms, g)
    decreases |syms|
  {
    if syms != [] {
      var init := syms[..|syms| - 1];
      var x := syms[|syms| - 1];
      WhereOfWhere(init, f, g);
      if f(x) {
        var w := Where(init, f) + [x];
        assert Where(syms, f) == w;
        assert w[..|w| - 1] == Where(init, f);
        if g(x) {
          assert Where(w, g) == Where(Where(init, f), g) + [x];
          assert Where(syms, g) == Where(init, g) + [x];
        } else {
          assert Where(w, g) == Where(Where(init, f), g);
          assert Where(syms, g) == Where(init, g);
        }
      } else {
        assert Where(syms, f) == Where(init, f);
        assert Where(syms, g) == Where(init, g);
      }
    }
  }

  // ---------------------------------------------------------------------
  // All files
  // ---------------------------------------------------------------------

  /** The symbols of the given files, file after file. */
  function InFiles(d: Dict<Path, seq<Symbol>>, ps: seq<Path>): seq<Symbol> {
    if ps == [] then []
    else
      InFiles(d, ps[..|ps| - 1]) + (match Get(d, ps[|ps| - 1]) case Some(s) => s case None => [])
  }

  /** The values of a dict, in its order. */
  function AllSymbols(d: Dict<Path, seq<Symbol>>): seq<Symbol> {
    if d == [] then [] else AllSymbols(d[..|d| - 1]) + d[|d| - 1].1
  }

  function OffsetsOf(syms: seq<Symbol>): set<int> {
    set i | 0 <= i < |syms| :: syms[i].offset
  }

  predicate DistinctOffsets(syms: seq<Symbol>) {
    forall i, j :: 0 <= i < j < |syms| ==> syms[i].offset != syms[j].offset
  }

  // ---------------------------------------------------------------------
  // Invalid addresses
  // ---------------------------------------------------------------------

  function AddrOk(isValid: int -> bool): Symbol -> bool {
    (s: Symbol) => isValid(s.offset)
  }

  function AddrBad(isValid: int -> bool): Symbol -> bool {
    (s: Symbol) => !isValid(s.offset)
  }

  /** Every file keeps the symbols whose address passes the check. */
  function KeepValid(d: Dict<Path, seq<Symbol>>, isValid: int -> bool): (r: Dict<Path, seq<Symbol>>)
    ensures |r| == |d|
    ensures forall i :: 0 <= i < |d| ==> r[i] == (d[i].0, Where(d[i].1, AddrOk(isValid)))
  {
    seq(|d|, i requires 0 <= i < |d| => (d[i].0, Where(d[i].1, AddrOk(isValid))))
  }

  /** The symbols whose address fails the check, file after file. */
  function InvalidOf(d: Dict<Path, seq<Symbol>>, isValid: int -> bool): seq<Symbol> {
    if d == [] then []
    else InvalidOf(d[..|d| - 1], isValid) + Where(d[|d| - 1].1, AddrBad(isValid))
  }

  /**
   * The pruned symbols are exactly the failing ones: every returned symbol
   * fails, and with the kept ones they make up the input.
   */
  lemma {:induction false} InvalidSplit(d: Dict<Path, seq<Symbol>>, isValid: int -> bool)
    ensures forall x :: x in InvalidOf(d, isValid) ==> !isValid(x.offset)
    ensures multiset(AllSymbols(KeepValid(d, isValid))) + multiset(InvalidOf(d, isValid)) == multiset(AllSymbols(d))
    ensures forall x :: x in AllSymbols(KeepValid(d, isValid)) ==> isValid(x.offset)
    decreases |d|
  {
    if d != [] {
      var init := d[..|d| - 1];
      InvalidSplit(init, isValid);
      var k := KeepValid(d, isValid);
      assert k[..|k| - 1] == KeepValid(init, isValid);
      WhereSplits(d[|d| - 1].1, AddrOk(isValid), AddrBad(isValid));
      InSplit(AllSymbols(KeepValid(init, isValid)), Where(d[|d| - 1].1, AddrOk(isValid)));
    }
  }

  lemma InSplit(a: seq<Symbol>, b: seq<Symbol>)
    ensures forall x :: x in a + b <==> x in a || x in b
  {
  }

  // ---------------------------------------------------------------------
  // Reused addresses
  // ---------------------------------------------------------------------

  /** What deduplicating returns: the symbols kept, the ones reported and the addresses used. */
  datatype Dedup = Dedup(kept: seq<Symbol>, dups: seq<Symbol>, used: set<int>)

  /** Every file deduplicated, the ones reported and the addresses used. */
  datatype DedupAll = DedupAll(files: Dict<Path, seq<Symbol>>, dups: seq<Symbol>, used: set<int>)

  /** One file: keep a symbol if its address is new, else report it; `used` grows. */
  function DedupFile(syms: seq<Symbol>, used: set<int>): Dedup {
    if syms == [] then Dedup([], [], used)
    else
      var r := DedupFile(syms[..|syms| - 1], used);
      var s := syms[|syms| - 1];
      if s.offset in r.used then Dedup(r.kept, r.dups + [s], r.used)
      else Dedup(r.kept + [s], r.dups, r.used + {s.offset})
  }

  /** All files in dict order, sharing one set of used addresses. */
  function DedupFiles(d: Dict<Path, seq<Symbol>>, used: set<int>): DedupAll {
    if d == [] then DedupAll([], [], used)
    else
      var r := DedupFiles(d[..|d| - 1], used);
      var f := DedupFile(d[|d| - 1].1, r.used);
      DedupAll(r.files + [(d[|d| - 1].0, f.kept)], r.dups + f.dups, f.used)
  }

  lemma OffsetsAppend(a: seq<Symbol>, b: seq<Symbol>)
    ensures OffsetsOf(a + b) == OffsetsOf(a) + OffsetsOf(b)
  {
    forall o | o in OffsetsOf(a + b) ensures o in OffsetsOf(a) + OffsetsOf(b) {
      var i :| 0 <= i < |a + b| && (a + b)[i].offset == o;
      if i >= |a| { assert b[i - |a|] == (a + b)[i]; }
    }
    forall o | o in OffsetsOf(a) + OffsetsOf(b) ensures o in OffsetsOf(a + b) {
      if o in OffsetsOf(a) {
        var i :| 0 <= i < |a| && a[i].offset == o;
        assert (a + b)[i] == a[i];
      } else {
        var i :| 0 <= i < |b| && b[i].offset == o;
        assert (a + b)[|a| + i] == b[i];
      }
    }
  }

  lemma DistinctAppend(a: seq<Symbol>, b: seq<Symbol>)
    requires DistinctOffsets(a) && DistinctOffsets(b)
    requires forall i :: 0 <= i < |b| ==> b[i].offset !in OffsetsOf(a)
    ensures DistinctOffsets(a + b)
  {
  }

  /** The addresses used afterwards are the ones used before and the kept ones. */
  lemma {:induction false} DedupFileUsed(syms: seq<Symbol>, used: set<int>)
    ensures DedupFile(syms, used).used == used + OffsetsOf(DedupFile(syms, used).kept)
    decreases |syms|
  {
    if syms != [] {
      DedupFileUsed(syms[..|syms| - 1], used);
      var r := DedupFile(syms[..|syms| - 1], used);
      var s := syms[|syms| - 1];
      if s.offset !in r.used {
        OffsetsAppend(r.kept, [s]);
        assert OffsetsOf([s]) == {s.offset} by {
          assert [s][0] == s;
        }
      }
    }
  }

  /** The kept symbols have distinct addresses, none of them used before. */
  lemma {:induction false} DedupFileFresh(syms: seq<Symbol>, used: set<int>)
    ensures DistinctOffsets(DedupFile(syms, used).kept)
    ensures forall i :: 0 <= i < |DedupFile(syms, used).kept| ==> DedupFile(syms, used).kept[i].offset !in used
    decreases |syms|
  {
    if syms != [] {
      DedupFileFresh(syms[..|syms| - 1], used);
      DedupFileUsed(syms[..|syms| - 1], used);
      var r := DedupFile(syms[..|syms| - 1], used);
      var s := syms[|syms| - 1];
      if s.offset !in r.used {
        assert forall i :: 0 <= i < |r.kept| ==> r.kept[i].offset in OffsetsOf(r.kept);
        DistinctAppend(r.kept, [s]);
      }
    }
  }

  /** Each reported symbol repeats an address that was used when it was reached. */
  lemma {:induction false} DedupFileDups(syms: seq<Symbol>, used: set<int>)
    ensures used <= DedupFile(syms, used).used
    ensures forall x :: x in DedupFile(syms, used).dups ==> x.offset in DedupFile(syms, used).used
    decreases |syms|
  {
    if syms != [] {
      DedupFileDups(syms[..|syms| - 1], used);
    }
  }

  /** Kept and reported symbols together make up the file. */
  lemma {:induction false} DedupFileParts(syms: seq<Symbol>, used: set<int>)
    ensures multiset(DedupFile(syms, used).kept) + multiset(DedupFile(syms, used).dups) == multiset(syms)
    decreases |syms|
  {
    if syms != [] {
      DedupFileParts(syms[..|syms| - 1], used);
      assert syms == syms[..|syms| - 1] + [syms[|syms| - 1]];
    }
  }

  lemma DedupFilesLast(d: Dict<Path, seq<Symbol>>, used: set<int>)
    requires d != []
    ensures var r := DedupFiles(d[..|d| - 1], used);
      AllSymbols(DedupFiles(d, used).files) == AllSymbols(r.files) + DedupFile(d[|d| - 1].1, r.used).kept
  {
  }

  /** Deduplicating keeps every file, in order. */
  lemma {:induction false} DedupFilesKeys(d: Dict<Path, seq<Symbol>>, used: set<int>)
    ensures Keys(DedupFiles(d, used).files) == Keys(d)
    decreases |d|
  {
    if d != [] {
      DedupFilesKeys(d[..|d| - 1], used);
      assert d == d[..|d| - 1] + [d[|d| - 1]];
    }
  }

  /**
   * Across files the kept symbols have distinct addresses, none used
   * before, and the addresses used afterwards are exactly those plus the
   * kept ones.
   */
  lemma {:induction false} DedupFilesFresh(d: Dict<Path, seq<Symbol>>, used: set<int>)
    ensures var r := DedupFiles(d, used);
      && r.used == used + OffsetsOf(AllSymbols(r.files))
      && DistinctOffsets(AllSymbols(r.files))
      && forall i :: 0 <= i < |AllSymbols(r.files)| ==> AllSymbols(r.files)[i].offset !in used
    decreases |d|
  {
    if d != [] {
      var init := d[..|d| - 1];
      DedupFilesFresh(init, used);
      var r := DedupFiles(init, used);
      var f := DedupFile(d[|d| - 1].1, r.used);
      DedupFileUsed(d[|d| - 1].1, r.used);
      DedupFileFresh(d[|d| - 1].1, r.used);
      DedupFilesLast(d, used);
      var all := AllSymbols(r.files);
      OffsetsAppend(all, f.kept);
      DistinctAppend(all, f.kept);
      assert forall i :: 0 <= i < |all + f.kept| ==> (all + f.kept)[i] in all || (all + f.kept)[i] in f.kept;
    }
  }

  /** Across files each reported symbol repeats an address used by then. */
  lemma {:induction false} DedupFilesDups(d: Dict<Path, seq<Symbol>>, used: set<int>)
    ensures used <= DedupFiles(d, used).used
    ensures forall x :: x in DedupFiles(d, used).dups ==> x.offset in DedupFiles(d, used).used
    decreases |d|
  {
    if d != [] {
      DedupFilesDups(d[..|d| - 1], used);
      DedupFileDups(d[|d| - 1].1, DedupFiles(d[..|d| - 1], used).used);
    }
  }

  /** Across files kept and reported symbols together make up the input. */
  lemma {:induction false} DedupFilesParts(d: Dict<Path, seq<Symbol>>, used: set<int>)
    ensures multiset(AllSymbols(DedupFiles(d, used).files)) + multiset(DedupFiles(d, used).dups) == multiset(AllSymbols(d))
    decreases |d|
  {
    if d != [] {
      DedupFilesParts(d[..|d| - 1], used);
      DedupFileParts(d[|d| - 1].1, DedupFiles(d[..|d| - 1], used).used);
      DedupFilesLast(d, used);
    }
  }

  // ---------------------------------------------------------------------
  // The code base
  // ---------------------------------------------------------------------

  /** Symbols of one module, per file, in the order the files were added. */
  class DecompCodebase {
    const moduleName: string
    var files: Dict<Path, string>
    var symbols: Dict<Path, seq<Symbol>>

    ghost predicate Valid()
      reads this
    {
      DistinctKeys(files) && DistinctKeys(symbols)
    }

    constructor(moduleName: string)
      ensures this.moduleName == moduleName && files == [] && symbols == [] && Valid()
    {
      this.moduleName := moduleName;
      files := [];
      symbols := [];
    }

    /**
     * Reads one file with a fresh reader and stores the symbols of this
     * module.  The text is stored first, so it stays even when reading raises.
     */
    method SetFile(path: Path, text: string, tokens: seq<Token>) returns (err: Option<Error>)
      requires Valid()
      modifies this`files, this`symbols
      ensures Valid()
      ensures files == Put(old(files), path, text)
      ensures err == ReadAll(Fresh, tokens).error
      ensures err.None? ==> symbols == Put(old(symbols), path, OfModule(ReadAll(Fresh, tokens).after.symbols, Some(moduleName)))
      ensures err.Some? ==> symbols == old(symbols)
    {
      files := Put(files, path, text);
      var parser := new DecompParser();
      err := parser.ReadTokens(tokens);
      if err.Some? {
        return;
      }
      symbols := Put(symbols, path, parser.IterSymbols(Some(moduleName)));
    }

    /** All symbols: the files in sorted path order, each file's symbols in the order read. */
    function IterSymbols(): seq<Symbol>
      reads this
    {
      InFiles(symbols, SortPaths(Keys(symbols)))
    }

    function IterLineFunctions(): seq<Symbol>
      reads this
    {
      Where(IterSymbols(), IsLineFunction)
    }

    function IterNameFunctions(): seq<Symbol>
      reads this
    {
      Where(IterSymbols(), IsNameFunction)
    }

    function IterVtables(): seq<Symbol>
      reads this
    {
      Where(IterSymbols(), IsVtable)
    }

    function IterVariables(): seq<Symbol>
      reads this
    {
      Where(IterSymbols(), IsVariable)
    }

    function IterStrings(): seq<Symbol>
      reads this
    {
      Where(IterSymbols(), IsString)
    }

    /** Drops the symbols whose address fails the check and returns them. */
    method PruneInvalidAddrs(isValid: int -> bool) returns (invalid: seq<Symbol>)
      requires Valid()
      modifies this`symbols
      ensures Valid()
      ensures symbols == KeepValid(old(symbols), isValid)
      ensures invalid == InvalidOf(old(symbols), isValid)
    {
      invalid := [];
      var i := 0;
      while i < |symbols|
        invariant 0 <= i <= |symbols| == |old(symbols)|
        invariant forall j :: 0 <= j < i ==> symbols[j] == KeepValid(old(symbols), isValid)[j]
        invariant forall j :: i <= j < |symbols| ==> symbols[j] == old(symbols)[j]
        invariant invalid == InvalidOf(old(symbols)[..i], isValid)
      {
        var (path, syms) := symbols[i];
        assert old(symbols)[..i + 1][..i] == old(symbols)[..i];
        invalid := invalid + Where(syms, AddrBad(isValid));
        // assigning to a key that is present keeps its position
        symbols := symbols[i := (path, Where(syms, AddrOk(isValid)))];
        i := i + 1;
      }
      assert old(symbols)[..i] == old(symbols);
      assert Keys(symbols) == Keys(old(symbols));
    }

    /**
     * Keeps the first symbol seen at each address, in dict order of the
     * files, and returns the later ones.
     */
    method PruneReusedAddrs() returns (duplicates: seq<Symbol>)
      requires Valid()
      modifies this`symbols
      ensures Valid()
      ensures symbols == DedupFiles(old(symbols), {}).files
      ensures duplicates == DedupFiles(old(symbols), {}).dups
    {
      var used: set<int> := {};
      duplicates := [];
      var i := 0;
      while i < |symbols|
        invariant 0 <= i <= |symbols| == |old(symbols)|
        invariant symbols[..i] == DedupFiles(old(symbols)[..i], {}).files
        invariant duplicates == DedupFiles(old(symbols)[..i], {}).dups
        invariant used == DedupFiles(old(symbols)[..i], {}).used
        invariant symbols[i..] == old(symbols)[i..]
      {
        var (path, syms) := symbols[i];
        assert old(symbols)[..i + 1][..i] == old(symbols)[..i];
        assert old(symbols)[i] == symbols[i..][0];
        var unique;
        unique, used, duplicates := DedupOne(syms, used, duplicates);
        ghost var before := symbols;
        symbols := symbols[i := (path, unique)];
        assert symbols[..i + 1] == before[..i] + [(path, unique)];
        assert symbols[i + 1..] == before[i + 1..];
        i := i + 1;
      }
      assert old(symbols)[..i] == old(symbols);
      assert symbols[..i] == symbols;
      DedupFilesKeys(old(symbols), {});
    }

    /** The inner loop of PruneReusedAddrs over one file's symbols. */
    static method DedupOne(syms: seq<Symbol>, used0: set<int>, dups0: seq<Symbol>)
      returns (unique: seq<Symbol>, used: set<int>, dups: seq<Symbol>)
      ensures unique == DedupFile(syms, used0).kept
      ensures dups == dups0 + DedupFile(syms, used0).dups
      ensures used == DedupFile(syms, used0).used
    {
      unique := [];
      used := used0;
      dups := dups0;
      var k := 0;
      while k < |syms|
        invariant 0 <= k <= |syms|
        invariant unique == DedupFile(syms[..k], used0).kept
        invariant dups == dups0 + DedupFile(syms[..k], used0).dups
        invariant used == DedupFile(syms[..k], used0).used
      {
        assert syms[..k + 1][..k] == syms[..k];
        var s := syms[k];
        if s.offset in used {
          dups := dups + [s];
        } else {
          unique := unique + [s];
          used := used + {s.offset};
        }
        k := k + 1;
      }
      assert syms[..k] == syms;
    }
  }

  /** iter_symbols reads the files in strictly increasing path order and each file in full. */
  lemma IterSymbolsOrder(c: DecompCodebase)
    requires c.Valid()
    ensures var ps := SortPaths(Keys(c.symbols));
      && multiset(ps) == multiset(Keys(c.symbols))
      && (forall i, j :: 0 <= i < j < |ps| ==> PathLess(ps[i], ps[j]))
      && c.IterSymbols() == InFiles(c.symbols, ps)
  {
    var ps := SortPaths(Keys(c.symbols));
    SortPathsSorted(Keys(c.symbols));
    forall i, j | 0 <= i < j < |ps| ensures PathLess(ps[i], ps[j]) {
      SortedPairwise(ps, i, j);
    }
  }
}

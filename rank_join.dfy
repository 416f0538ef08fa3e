/**
 * The "k-th with k-th" joins of the matching passes. SQLite numbers the rows
 * of each side within a partition (`row_number() over (partition by key
 * order by addr)`) and joins the two sides on equal key and equal number.
 * Here a side is a set of (address, key) rows and the number is a count.
 */
module RankJoin {
  import opened Wrappers
  import opened JsonBag
  import opened CompareDb

  /** row_number(): the 1-based position of the row among the rows of its key, by address. */
  function Nth<K(==)>(c: set<(int, K)>, x: (int, K)): nat
  {
    |set y | y in c && y.1 == x.1 && y.0 <= x.0|
  }

  /** count(...) over the partition of a key. */
  function Cnt<K(==)>(c: set<(int, K)>, k: K): nat
  {
    |set y | y in c && y.1 == k|
  }

  /** Each address occurs in at most one row (the address is the row's primary key). */
  predicate AddrKeyed<K(==)>(c: set<(int, K)>)
  {
    forall x, y :: x in c && y in c && x.0 == y.0 ==> x == y
  }

  lemma NthBounds<K>(c: set<(int, K)>, x: (int, K))
    requires x in c
    ensures 1 <= Nth(c, x) <= Cnt(c, x.1)
  {
    var below := set y | y in c && y.1 == x.1 && y.0 <= x.0;
    var all := set y | y in c && y.1 == x.1;
    assert x in below;
    assert below <= all;
    SubsetCard(below, all);
  }

  lemma SubsetCard<T>(a: set<T>, b: set<T>)
    requires a <= b
    ensures |a| <= |b|
    ensures a < b ==> |a| < |b|
  {
    assert b == a + (b - a);
    if a < b {
      var z :| z in b - a;
      assert |b - a| >= |{z}|;
    }
  }

  /** Within a key, a later address has a strictly greater number. */
  lemma NthStrict<K>(c: set<(int, K)>, x: (int, K), y: (int, K))
    requires AddrKeyed(c) && x in c && y in c && x.1 == y.1 && x.0 < y.0
    ensures Nth(c, x) < Nth(c, y)
  {
    var bx := set z | z in c && z.1 == x.1 && z.0 <= x.0;
    var upTo := set z | z in c && z.1 == y.1 && z.0 <= y.0;
    assert y in upTo && y !in bx;
    assert bx < upTo;
    SubsetCard(bx, upTo);
  }

  /** Key and number identify a row. */
  lemma NthInjective<K>(c: set<(int, K)>, x: (int, K), y: (int, K))
    requires AddrKeyed(c) && x in c && y in c && x.1 == y.1 && Nth(c, x) == Nth(c, y)
    ensures x == y
  {
    if x.0 < y.0 { NthStrict(c, x, y); }
    else if y.0 < x.0 { NthStrict(c, y, x); }
  }

  /** The join of the two sides on equal key and equal number. */
  function Join<K(==)>(c0: set<(int, K)>, c1: set<(int, K)>): set<(int, int)>
  {
    set x, y | x in c0 && y in c1 && x.1 == y.1 && Nth(c0, x) == Nth(c1, y) :: (x.0, y.0)
  }

  /** The join pairs each address with at most one address on the other side. */
  lemma JoinInjective<K>(c0: set<(int, K)>, c1: set<(int, K)>, p: (int, int), q: (int, int))
    requires AddrKeyed(c0) && AddrKeyed(c1) && p in Join(c0, c1) && q in Join(c0, c1)
    ensures p.0 == q.0 <==> p.1 == q.1
  {
    var x1, y1 :| x1 in c0 && y1 in c1 && x1.1 == y1.1 && Nth(c0, x1) == Nth(c1, y1) && p == (x1.0, y1.0);
    var x2, y2 :| x2 in c0 && y2 in c1 && x2.1 == y2.1 && Nth(c0, x2) == Nth(c1, y2) && q == (x2.0, y2.0);
    if p.0 == q.0 {
      assert x1 == x2;
      NthInjective(c1, y1, y2);
    }
    if p.1 == q.1 {
      assert y1 == y2;
      NthInjective(c0, x1, x2);
    }
  }

  // ---- get_matches_for_type_and_label ----

  /** `substr(label, 0, 255)` as written: SQLite counts from 1, so start 0 keeps 254 characters. */
  function SubstrFromZero(s: string): (r: string)
    ensures |r| == if |s| < 254 then |s| else 254
    ensures r == s[..|r|]
  {
    if |s| <= 254 then s else s[..254]
  }

  /** The evidently intended cut, the same as `symbol[:255]` in match_symbols. */
  function Cut255(s: string): (r: string)
    ensures |r| == if |s| < 255 then |s| else 255
    ensures r == s[..|r|]
    ensures |s| <= 255 ==> r == s
  {
    if |s| <= 255 then s else s[..255]
  }

  /** A 255-character label loses its last character in the query as written. */
  lemma SubstrDropsChar255()
    ensures var s := seq(255, _ => 'a'); SubstrFromZero(s) != s && Cut255(s) == s
  {
    var s := seq(255, _ => 'a');
    assert |SubstrFromZero(s)| == 254;
  }

  /** Whether the address is part of a match on its side (views matched0 / matched1). */
  predicate IsMatched(t: Table, img: int, addr: int)
  {
    (img == 0 && addr in t.recompOf) || (img == 1 && addr in t.origOf)
  }

  /**
   * The candidate filter as written, `type is null or type = T and
   * (unmatched)`: AND binds tighter, so an untyped label is a candidate even
   * when its address is already matched.
   */
  predicate CandidateAsWritten(types: map<(int, int), EntityType>, t: Table, img: int, addr: int, ty: EntityType)
  {
    (img, addr) !in types || (types[(img, addr)] == ty && (img == 0 || img == 1) && !IsMatched(t, img, addr))
  }

  /** The evidently intended filter: `(type is null or type = T) and (unmatched)`. */
  predicate Candidate(types: map<(int, int), EntityType>, t: Table, img: int, addr: int, ty: EntityType)
  {
    ((img, addr) !in types || types[(img, addr)] == ty) && (img == 0 || img == 1) && !IsMatched(t, img, addr)
  }

  /** An untyped label on a matched orig address passes the written filter but not the intended one. */
  lemma MatchedUntypedIsCandidate(ty: EntityType)
    ensures var t := Table(map[16 := map[]], map[16 := 256], map[256 := 16], map[]);
      CandidateAsWritten(map[], t, 0, 16, ty) && !Candidate(map[], t, 0, 16, ty)
  {}

  /**
   * The text of a label as the `label text` column holds it: SQLite binds a
   * Python bool as the integer 1 or 0, which TEXT affinity stores as "1" or "0".
   */
  function LabelText(v: Value): string
  {
    match v
    case JBool(b) => if b then "1" else "0"
    case _ => PyStr(v)
  }

  /**
   * The candidate rows of one side as the query is written: (address, label
   * cut by `substr(label, 0, 255)` when truncating), filtered by the written
   * condition.
   */
  function LabelSide(labels: map<(int, int), Value>, types: map<(int, int), EntityType>, t: Table,
                     img: int, ty: EntityType, truncate: bool): (c: set<(int, string)>)
    ensures AddrKeyed(c)
    ensures forall x :: x in c ==> (img, x.0) in labels && CandidateAsWritten(types, t, img, x.0, ty)
  {
    set k | k in labels && k.0 == img && CandidateAsWritten(types, t, img, k.1, ty)
      :: (k.1, if truncate then SubstrFromZero(LabelText(labels[k])) else LabelText(labels[k]))
  }

  /** The candidate rows of one side with the intended filter and cut. */
  function LabelSideIntended(labels: map<(int, int), Value>, types: map<(int, int), EntityType>, t: Table,
                             img: int, ty: EntityType, truncate: bool): (c: set<(int, string)>)
    ensures AddrKeyed(c)
    ensures forall x :: x in c ==> (img, x.0) in labels && Candidate(types, t, img, x.0, ty)
  {
    set k | k in labels && k.0 == img && Candidate(types, t, img, k.1, ty)
      :: (k.1, if truncate then Cut255(LabelText(labels[k])) else LabelText(labels[k]))
  }

  datatype LabelMatch = LabelMatch(orig: int, recomp: int, text: string, unique: bool)

  /**
   * The outer query: the k-th orig and k-th recomp candidate with the same
   * label, at least one of them typed; unique when the label occurs once on
   * each side.
   */
  function LabelJoin(c0: set<(int, string)>, c1: set<(int, string)>, types: map<(int, int), EntityType>): set<LabelMatch>
  {
    set x, y | x in c0 && y in c1 && x.1 == y.1 && Nth(c0, x) == Nth(c1, y)
                && ((0, x.0) in types || (1, y.0) in types)
      :: LabelMatch(x.0, y.0, x.1, Cnt(c0, x.1) == 1 && Cnt(c1, y.1) == 1)
  }

  /** get_matches_for_type_and_label as written. */
  function TypeLabelMatches(labels: map<(int, int), Value>, types: map<(int, int), EntityType>, t: Table,
                            ty: EntityType, truncate: bool): set<LabelMatch>
  {
    LabelJoin(LabelSide(labels, types, t, 0, ty, truncate), LabelSide(labels, types, t, 1, ty, truncate), types)
  }

  /** get_matches_for_type_and_label with the filter and the cut as evidently intended. */
  function TypeLabelMatchesIntended(labels: map<(int, int), Value>, types: map<(int, int), EntityType>, t: Table,
                                    ty: EntityType, truncate: bool): set<LabelMatch>
  {
    LabelJoin(LabelSideIntended(labels, types, t, 0, ty, truncate),
              LabelSideIntended(labels, types, t, 1, ty, truncate), types)
  }

  /** The two candidate rows a row of the join comes from. */
  lemma LabelMatchFrom(c0: set<(int, string)>, c1: set<(int, string)>, types: map<(int, int), EntityType>, m: LabelMatch)
    returns (x: (int, string), y: (int, string))
    requires m in LabelJoin(c0, c1, types)
    ensures && x in c0 && y in c1 && x.1 == y.1 && Nth(c0, x) == Nth(c1, y)
      && ((0, x.0) in types || (1, y.0) in types)
      && m == LabelMatch(x.0, y.0, x.1, Cnt(c0, x.1) == 1 && Cnt(c1, y.1) == 1)
  {
    x, y :| x in c0 && y in c1 && x.1 == y.1 && Nth(c0, x) == Nth(c1, y)
      && ((0, x.0) in types || (1, y.0) in types)
      && m == LabelMatch(x.0, y.0, x.1, Cnt(c0, x.1) == 1 && Cnt(c1, y.1) == 1);
  }

  /** No address occurs in two rows of the join: each orig address gets at most one recomp address and the other way round. */
  lemma LabelJoinOneToOne(c0: set<(int, string)>, c1: set<(int, string)>, types: map<(int, int), EntityType>,
                          m1: LabelMatch, m2: LabelMatch)
    requires AddrKeyed(c0) && AddrKeyed(c1)
    requires m1 in LabelJoin(c0, c1, types) && m2 in LabelJoin(c0, c1, types)
    ensures m1.orig == m2.orig <==> m1.recomp == m2.recomp
    ensures m1.orig == m2.orig ==> m1 == m2
  {
    var x1, y1 := LabelMatchFrom(c0, c1, types, m1);
    var x2, y2 := LabelMatchFrom(c0, c1, types, m2);
    if m1.orig == m2.orig {
      assert x1 == x2;
      NthInjective(c1, y1, y2);
    }
    if m1.recomp == m2.recomp {
      assert y1 == y2;
      NthInjective(c0, x1, x2);
    }
  }

  /**
   * As written, every row pairs two labels that pass the written filter, at
   * least one of them typed, and no address occurs in two rows. An address
   * that is already matched can only come from an untyped label.
   */
  lemma TypeLabelMatchesSound(labels: map<(int, int), Value>, types: map<(int, int), EntityType>, t: Table,
                              ty: EntityType, truncate: bool, m1: LabelMatch, m2: LabelMatch)
    requires m1 in TypeLabelMatches(labels, types, t, ty, truncate)
    requires m2 in TypeLabelMatches(labels, types, t, ty, truncate)
    ensures (0, m1.orig) in labels && (1, m1.recomp) in labels
    ensures (0, m1.orig) in types || (1, m1.recomp) in types
    ensures CandidateAsWritten(types, t, 0, m1.orig, ty) && CandidateAsWritten(types, t, 1, m1.recomp, ty)
    ensures m1.orig in t.recompOf ==> (0, m1.orig) !in types
    ensures m1.recomp in t.origOf ==> (1, m1.recomp) !in types
    ensures m1.orig == m2.orig <==> m1.recomp == m2.recomp
    ensures m1.orig == m2.orig ==> m1 == m2
  {
    var c0 := LabelSide(labels, types, t, 0, ty, truncate);
    var c1 := LabelSide(labels, types, t, 1, ty, truncate);
    var x, y := LabelMatchFrom(c0, c1, types, m1);
    LabelJoinOneToOne(c0, c1, types, m1, m2);
  }

  /** With the intended query, both addresses of every row are still unmatched, and each label has the intended cut. */
  lemma TypeLabelMatchesIntendedSound(labels: map<(int, int), Value>, types: map<(int, int), EntityType>, t: Table,
                                      ty: EntityType, truncate: bool, m1: LabelMatch, m2: LabelMatch)
    requires m1 in TypeLabelMatchesIntended(labels, types, t, ty, truncate)
    requires m2 in TypeLabelMatchesIntended(labels, types, t, ty, truncate)
    ensures m1.orig !in t.recompOf && m1.recomp !in t.origOf
    ensures (0, m1.orig) in labels && (1, m1.recomp) in labels
    ensures (0, m1.orig) in types || (1, m1.recomp) in types
    ensures truncate ==> m1.text == Cut255(LabelText(labels[(0, m1.orig)]))
    ensures m1.orig == m2.orig <==> m1.recomp == m2.recomp
    ensures m1.orig == m2.orig ==> m1 == m2
  {
    var c0 := LabelSideIntended(labels, types, t, 0, ty, truncate);
    var c1 := LabelSideIntended(labels, types, t, 1, ty, truncate);
    var x, y := LabelMatchFrom(c0, c1, types, m1);
    LabelJoinOneToOne(c0, c1, types, m1, m2);
  }

  /** A unique row's label occurs exactly once among the candidates of each side. */
  lemma UniqueMeansAlone(labels: map<(int, int), Value>, types: map<(int, int), EntityType>, t: Table,
                         ty: EntityType, truncate: bool, m: LabelMatch, o: int)
    requires m in TypeLabelMatches(labels, types, t, ty, truncate) && m.unique
    requires (o, m.text) in LabelSide(labels, types, t, 0, ty, truncate)
    ensures o == m.orig
  {
    var c0 := LabelSide(labels, types, t, 0, ty, truncate);
    var c1 := LabelSide(labels, types, t, 1, ty, truncate);
    var x, w := LabelMatchFrom(c0, c1, types, m);
    assert Cnt(c0, x.1) == 1;
    assert (o, m.text) == x by {
      if (o, m.text) != x {
        CntAtLeastTwo(c0, x, (o, m.text));
      }
    }
  }

  lemma CntAtLeastTwo<K>(c: set<(int, K)>, a: (int, K), b: (int, K))
    requires a in c && b in c && a.1 == b.1 && a != b
    ensures Cnt(c, a.1) >= 2
  {
    var g := set y | y in c && y.1 == a.1;
    SubsetCard({a, b}, g);
    assert |{a, b}| == 2;
  }

  // ---- match_strings ----

  /** The STRING entities of one side that have raw bytes: (address, bytes). */
  function StringSide(raw: map<(int, int), seq<int>>, types: map<(int, int), EntityType>, img: int): (c: set<(int, seq<int>)>)
    ensures AddrKeyed(c)
    ensures forall x :: x in c ==> (img, x.0) in raw && raw[(img, x.0)] == x.1 && (img, x.0) in types && types[(img, x.0)] == STRING
  {
    set k | k in raw && k.0 == img && k in types && types[k] == STRING :: (k.1, raw[k])
  }

  /** match_strings: the k-th orig and k-th recomp string with the same bytes. */
  function StringPairs(raw: map<(int, int), seq<int>>, types: map<(int, int), EntityType>): set<(int, int)>
  {
    Join(StringSide(raw, types, 0), StringSide(raw, types, 1))
  }

  /** Paired strings have equal bytes, and no address is paired twice. */
  lemma StringPairsSound(raw: map<(int, int), seq<int>>, types: map<(int, int), EntityType>, p: (int, int), q: (int, int))
    requires p in StringPairs(raw, types) && q in StringPairs(raw, types)
    ensures (0, p.0) in raw && (1, p.1) in raw && raw[(0, p.0)] == raw[(1, p.1)]
    ensures p.0 == q.0 <==> p.1 == q.1
  {
    var c0, c1 := StringSide(raw, types, 0), StringSide(raw, types, 1);
    JoinInjective(c0, c1, p, q);
    var x, y :| x in c0 && y in c1 && x.1 == y.1 && Nth(c0, x) == Nth(c1, y) && p == (x.0, y.0);
  }

  // ---- match_ref ----

  /** A row of the entities table, named by the address that identifies it. */
  datatype RowId = ByOrig(o: int) | ByRecomp(r: int)

  /** The generated column `ref_orig` / `ref_recomp`: an integer value of the key, else NULL. */
  function RefOf(kv: Bag, key: string): Option<int>
  {
    if key in kv && kv[key].JInt? then Some(kv[key].i) else None
  }

  /** The attributes of the row that has recomp address `r`, if any. */
  function RecompKv(t: Table, r: int): Option<Bag>
  {
    if r in t.origOf && t.origOf[r] in t.origRows then Some(t.origRows[t.origOf[r]])
    else if r in t.recompRows then Some(t.recompRows[r])
    else None
  }

  /** The row whose recomp address is `q`. */
  function RowAtRecomp(t: Table, q: int): Option<RowId>
  {
    if q in t.origOf then Some(ByOrig(t.origOf[q]))
    else if q in t.recompRows then Some(ByRecomp(q))
    else None
  }

  /** View orig_refs: the orig thunks whose ref_orig names an existing row, keyed by that row. */
  function OrigRefs(t: Table): (c: set<(int, RowId)>)
    ensures AddrKeyed(c)
  {
    set o | o in t.origRows && RefOf(t.origRows[o], "ref_orig").Some?
            && RefOf(t.origRows[o], "ref_orig").value in t.origRows
      :: (o, ByOrig(RefOf(t.origRows[o], "ref_orig").value))
  }

  /** View recomp_refs: the recomp thunks whose ref_recomp names an existing row, keyed by that row. */
  function RecompRefs(t: Table): (c: set<(int, RowId)>)
    ensures AddrKeyed(c)
  {
    set r | r in t.origOf.Keys + t.recompRows.Keys && RecompKv(t, r).Some?
            && RefOf(RecompKv(t, r).value, "ref_recomp").Some?
            && RowAtRecomp(t, RefOf(RecompKv(t, r).value, "ref_recomp").value).Some?
      :: (r, RowAtRecomp(t, RefOf(RecompKv(t, r).value, "ref_recomp").value).value)
  }

  /** match_ref: the k-th orig and k-th recomp referencer of the same row. */
  function RefPairs(t: Table): set<(int, int)>
  {
    Join(OrigRefs(t), RecompRefs(t))
  }

  /**
   * A pair joins two thunks whose references name the same row: a matched
   * parent, whose orig address is the orig thunk's ref_orig and whose recomp
   * address is the recomp thunk's ref_recomp.
   */
  lemma RefPairsShareParent(t: Table, p: (int, int))
    requires WellFormed(t) && p in RefPairs(t)
    ensures p.0 in t.origRows && RefOf(t.origRows[p.0], "ref_orig").Some?
    ensures var parent := RefOf(t.origRows[p.0], "ref_orig").value;
      && parent in t.recompOf
      && RecompKv(t, p.1).Some?
      && RefOf(RecompKv(t, p.1).value, "ref_recomp") == Some(t.recompOf[parent])
  {
    var c0, c1 := OrigRefs(t), RecompRefs(t);
    var x, y :| x in c0 && y in c1 && x.1 == y.1 && Nth(c0, x) == Nth(c1, y) && p == (x.0, y.0);
    var parent := RefOf(t.origRows[p.0], "ref_orig").value;
    var q := RefOf(RecompKv(t, p.1).value, "ref_recomp").value;
    assert RowAtRecomp(t, q) == Some(ByOrig(parent));
  }

  /** No thunk is paired twice. */
  lemma RefPairsInjective(t: Table, p: (int, int), q: (int, int))
    requires p in RefPairs(t) && q in RefPairs(t)
    ensures p.0 == q.0 <==> p.1 == q.1
  {
    JoinInjective(OrigRefs(t), RecompRefs(t), p, q);
  }
}

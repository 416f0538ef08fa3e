/**
 * Array-element matching of the comparison core. For each matched DATA
 * entity that the recomp debug information describes as an array, every
 * element (or every field of every element, for an array of structs) gets
 * its recomp address named "<array name><element>[.<field>]", and is matched
 * to the orig address at the same offset as long as that address lies below
 * both the end of the orig array and the next orig entity.
 *
 * The debug-information layout is a parameter: `layout(recompAddr)` is the
 * array's element list and the element type's field list, or None when the
 * variable is not an array.
 */
module CoreArrays {
  import opened Wrappers
  import opened JsonBag
  import opened CompareDb
  import opened EntityBatches

  /** An element of an array or a field of a struct: its name suffix and byte offset. */
  datatype Member = Member(name: string, offset: int)

  /** The elements of an array, and the fields of its element type when it has any. */
  datatype ArrayLayout = ArrayLayout(elements: seq<Member>, fields: Option<seq<Member>>)

  /** Every address the pass names, relative to the array: elements, or each field of each element. */
  function Expand(lay: ArrayLayout): (ms: seq<Member>)
    ensures lay.fields.None? ==> ms == lay.elements
  {
    match lay.fields
    case None => lay.elements
    case Some(fs) => ExpandFields(lay.elements, fs)
  }

  function ExpandFields(els: seq<Member>, fs: seq<Member>): (ms: seq<Member>)
    ensures |ms| == |els| * |fs|
  {
    if els == [] then []
    else
      var el := els[0];
      FieldsOf(el, fs) + ExpandFields(els[1..], fs)
  }

  /** `f"{element.name}.{member.name}"` at `element.offset + member.offset`. */
  function FieldsOf(el: Member, fs: seq<Member>): (ms: seq<Member>)
    ensures |ms| == |fs|
    ensures forall k :: 0 <= k < |fs| ==> ms[k] == Member(el.name + "." + fs[k].name, el.offset + fs[k].offset)
  {
    seq(|fs|, k requires 0 <= k < |fs| => Member(el.name + "." + fs[k].name, el.offset + fs[k].offset))
  }

  /** `match.orig_addr + match.size`: an int (or bool) adds, anything else raises TypeError. */
  function EndOf(orig: int, size: Value): (r: Result<int>)
    ensures size.JInt? ==> r == Ok(orig + size.i)
    ensures size.JNull? || size.JStr? ==> r == Err(TypeError)
    ensures r.Err? <==> !(size.JInt? || size.JBool?)
    ensures r.Err? ==> r.error == TypeError
  {
    match size
    case JInt(i) => Ok(orig + i)
    case JBool(b) => Ok(orig + if b then 1 else 0)
    case _ => Err(TypeError)
  }

  /** `upper_bound`: the array's end, lowered to the next orig address when that comes first. */
  function Bound(t: Table, orig: int, end: int): (b: int)
    ensures b <= end
    ensures NextOrigAddr(t, orig).Some? ==> b <= NextOrigAddr(t, orig).value
    ensures b == end || Some(b) == NextOrigAddr(t, orig)
  {
    match NextOrigAddr(t, orig)
    case Some(n) => if n < end then n else end
    case None => end
  }

  /**
   * What the loop remembers besides the batch: the recomp addresses seen, and
   * the (orig, recomp, bound) matches made so far.
   */
  datatype Book = Book(seen: set<int>, matched: seq<(int, int, int)>)

  /** The loop state: the batch's pending changes and the book. */
  datatype ArrayState = ArrayState(p: Pending, book: Book)

  /** The book after `_add_match_in_array`. */
  function Record(b: Book, o: int, r: int, bound: int): Book
  {
    if r in b.seen then b
    else Book(b.seen + {r}, b.matched + if o < bound then [(o, r, bound)] else [])
  }

  /** The address of element `m` of an array at `addr`. */
  function Shifted(addr: int, m: Member): int
  {
    addr + m.offset
  }

  /** The book after the calls for the first `n` expanded elements of one array. */
  function RecordAll(b: Book, ms: seq<Member>, n: nat, o: int, r: int, bound: int): Book
    requires n <= |ms|
  {
    if n == 0 then b
    else Record(RecordAll(b, ms, n - 1, o, r, bound), Shifted(o, ms[n - 1]), Shifted(r, ms[n - 1]), bound)
  }

  /** The staging calls of `_add_match_in_array` for a recomp address not seen before. */
  function StageElement(p: Pending, name: string, o: int, r: int, bound: int): (p': Pending)
    requires PendingValid(p)
    ensures PendingValid(p')
  {
    assert TypeTag(map["name" := JStr(name)]) == Ok(None);
    var p1 := PStage(p, SetRecompKind, r, map["name" := JStr(name)]);
    if o < bound then PMatch(p1, o, r) else p1
  }

  /** `_add_match_in_array`. */
  function AddInArray(s: ArrayState, name: string, o: int, r: int, bound: int): (s': ArrayState)
    requires PendingValid(s.p)
    ensures PendingValid(s'.p)
    ensures s'.book == Record(s.book, o, r, bound)
  {
    if r in s.book.seen then s
    else ArrayState(StageElement(s.p, name, o, r, bound), Record(s.book, o, r, bound))
  }

  /** The calls for the first `n` expanded elements of one array, in order. */
  function AddAll(s: ArrayState, base: string, ms: seq<Member>, n: nat, o: int, r: int, bound: int): (s': ArrayState)
    requires PendingValid(s.p) && n <= |ms|
    ensures PendingValid(s'.p)
  {
    if n == 0 then s
    else
      var m := ms[n - 1];
      AddInArray(AddAll(s, base, ms, n - 1, o, r, bound), base + m.name, Shifted(o, m), Shifted(r, m), bound)
  }

  /** One more element's call extends the fold by one. */
  lemma AddAllStep(s: ArrayState, base: string, ms: seq<Member>, i: nat, o: int, r: int, bound: int)
    requires PendingValid(s.p) && i < |ms|
    ensures AddAll(s, base, ms, i + 1, o, r, bound)
      == AddInArray(AddAll(s, base, ms, i, o, r, bound), base + ms[i].name, Shifted(o, ms[i]), Shifted(r, ms[i]), bound)
  {
  }

  /** The book the calls leave is the one `RecordAll` describes, whatever the batch holds. */
  lemma {:induction false} AddAllBook(s: ArrayState, base: string, ms: seq<Member>, n: nat, o: int, r: int, bound: int)
    requires PendingValid(s.p) && n <= |ms|
    ensures AddAll(s, base, ms, n, o, r, bound).book == RecordAll(s.book, ms, n, o, r, bound)
  {
    if n != 0 {
      AddAllBook(s, base, ms, n - 1, o, r, bound);
      var s1 := AddAll(s, base, ms, n - 1, o, r, bound);
      assert AddAll(s, base, ms, n, o, r, bound) == AddInArray(s1, base + ms[n - 1].name, Shifted(o, ms[n - 1]), Shifted(r, ms[n - 1]), bound);
    }
  }

  /** One matched DATA entity. */
  function ArrayStep(t: Table, layout: int -> Option<ArrayLayout>, s: ArrayState, e: Entity): (r: Result<ArrayState>)
    requires PendingValid(s.p) && Matched(e)
    ensures r.Ok? ==> PendingValid(r.value.p)
    ensures r.Err? ==> r == Err(TypeError)
  {
    match layout(e.recomp.value)
    case None => Ok(s)
    case Some(lay) =>
      match EndOf(e.orig.value, SizeOf(e))
      case Err(err) => Err(err)
      case Ok(end) =>
        Ok(AddAll(s, PyStr(NameOf(e)), Expand(lay), |Expand(lay)|, e.orig.value, e.recomp.value, Bound(t, e.orig.value, end)))
  }

  function ArrayFold(t: Table, layout: int -> Option<ArrayLayout>, s0: ArrayState, rows: seq<Entity>): (r: Result<ArrayState>)
    requires PendingValid(s0.p) && forall i :: 0 <= i < |rows| ==> Matched(rows[i])
    ensures r.Ok? ==> PendingValid(r.value.p)
    ensures r.Err? ==> r == Err(TypeError)
  {
    if rows == [] then Ok(s0)
    else
      match ArrayFold(t, layout, s0, rows[..|rows| - 1])
      case Err(err) => Err(err)
      case Ok(s) => ArrayStep(t, layout, s, rows[|rows| - 1])
  }

  lemma {:induction false} ArrayFoldErrSticks(t: Table, layout: int -> Option<ArrayLayout>, s0: ArrayState, rows: seq<Entity>, i: nat)
    requires PendingValid(s0.p) && forall i :: 0 <= i < |rows| ==> Matched(rows[i])
    requires i <= |rows| && ArrayFold(t, layout, s0, rows[..i]).Err?
    ensures ArrayFold(t, layout, s0, rows) == Err(TypeError)
    decreases |rows| - i
  {
    if i < |rows| {
      assert rows[..i + 1][..i] == rows[..i];
      ArrayFoldErrSticks(t, layout, s0, rows, i + 1);
    } else {
      assert rows[..i] == rows;
    }
  }

  lemma ArrayFoldSnoc(t: Table, layout: int -> Option<ArrayLayout>, s0: ArrayState, rows: seq<Entity>, i: nat)
    requires PendingValid(s0.p) && forall i :: 0 <= i < |rows| ==> Matched(rows[i])
    requires i < |rows| && ArrayFold(t, layout, s0, rows[..i]).Ok?
    ensures ArrayFold(t, layout, s0, rows[..i + 1]) == ArrayStep(t, layout, ArrayFold(t, layout, s0, rows[..i]).value, rows[i])
  {
    assert rows[..i + 1][..i] == rows[..i];
  }

  /** The pending changes of the pass, or the exception that stops it before the commit. */
  function ArrayPending(t: Table, layout: int -> Option<ArrayLayout>): (r: Result<ArrayState>)
    requires WellFormed(t)
    ensures r.Ok? ==> PendingValid(r.value.p)
  {
    NoPendingValid();
    ArrayFold(t, layout, ArrayState(NoPending, Book({}, [])), MatchesByType(t, DATA))
  }

  // ---- what the pass keeps ----

  /**
   * Each recomp address is matched at most once and is recorded as seen,
   * and every match attaches an orig address below its array's bound.
   */
  ghost predicate ArrayInv(b: Book)
  {
    && (forall i, j :: 0 <= i < j < |b.matched| ==> b.matched[i].1 != b.matched[j].1)
    && (forall i :: 0 <= i < |b.matched| ==> b.matched[i].1 in b.seen)
    && (forall i :: 0 <= i < |b.matched| ==> b.matched[i].0 < b.matched[i].2)
  }

  /** `b'` keeps the matches of `b` and adds only matches with bound `bound`. */
  ghost predicate Extends(b: Book, b': Book, bound: int)
  {
    && |b'.matched| >= |b.matched|
    && b'.matched[..|b.matched|] == b.matched
    && forall k :: |b.matched| <= k < |b'.matched| ==> b'.matched[k].2 == bound
  }

  lemma ExtendsTrans(b: Book, b1: Book, b2: Book, bound: int)
    requires Extends(b, b1, bound) && Extends(b1, b2, bound)
    ensures Extends(b, b2, bound)
  {
    assert b2.matched[..|b.matched|] == b2.matched[..|b1.matched|][..|b.matched|];
    forall k | |b.matched| <= k < |b2.matched| ensures b2.matched[k].2 == bound {
      if k < |b1.matched| {
        assert b2.matched[k] == b2.matched[..|b1.matched|][k];
      }
    }
  }

  lemma RecordKeeps(b: Book, o: int, r: int, bound: int)
    requires ArrayInv(b)
    ensures ArrayInv(Record(b, o, r, bound)) && Extends(b, Record(b, o, r, bound), bound)
  {
    var b' := Record(b, o, r, bound);
    assert b'.matched[..|b.matched|] == b.matched;
    if r !in b.seen {
      forall i, j | 0 <= i < j < |b'.matched| ensures b'.matched[i].1 != b'.matched[j].1 {
        if j == |b.matched| {
          assert b.matched[i].1 in b.seen;
        }
      }
    }
  }

  lemma {:induction false} RecordAllKeeps(b: Book, ms: seq<Member>, n: nat, o: int, r: int, bound: int)
    requires ArrayInv(b) && n <= |ms|
    ensures ArrayInv(RecordAll(b, ms, n, o, r, bound)) && Extends(b, RecordAll(b, ms, n, o, r, bound), bound)
  {
    if n != 0 {
      var m := ms[n - 1];
      var b1 := RecordAll(b, ms, n - 1, o, r, bound);
      RecordAllKeeps(b, ms, n - 1, o, r, bound);
      RecordKeeps(b1, Shifted(o, m), Shifted(r, m), bound);
      ExtendsTrans(b, b1, RecordAll(b, ms, n, o, r, bound), bound);
    } else {
      assert b.matched[..|b.matched|] == b.matched;
    }
  }

  /** `b` is the bound of one of the arrays among `rows`. */
  ghost predicate BoundOfSome(t: Table, rows: seq<Entity>, b: int)
  {
    exists i :: 0 <= i < |rows| && rows[i].orig.Some? && EndOf(rows[i].orig.value, SizeOf(rows[i])).Ok?
      && b == Bound(t, rows[i].orig.value, EndOf(rows[i].orig.value, SizeOf(rows[i])).value)
  }

  /** Every match of the book has the bound of one of the arrays among `rows`. */
  ghost predicate BoundsFrom(t: Table, rows: seq<Entity>, b: Book)
  {
    forall k :: 0 <= k < |b.matched| ==> BoundOfSome(t, rows, b.matched[k].2)
  }

  lemma ArrayStepKeeps(t: Table, layout: int -> Option<ArrayLayout>, rows: seq<Entity>, n: nat, s: ArrayState)
    requires PendingValid(s.p) && n < |rows| && Matched(rows[n])
    requires ArrayInv(s.book) && BoundsFrom(t, rows, s.book) && ArrayStep(t, layout, s, rows[n]).Ok?
    ensures ArrayInv(ArrayStep(t, layout, s, rows[n]).value.book)
    ensures BoundsFrom(t, rows, ArrayStep(t, layout, s, rows[n]).value.book)
  {
    var e := rows[n];
    if layout(e.recomp.value).Some? {
      var end := EndOf(e.orig.value, SizeOf(e)).value;
      var bd := Bound(t, e.orig.value, end);
      var ms := Expand(layout(e.recomp.value).value);
      var b' := RecordAll(s.book, ms, |ms|, e.orig.value, e.recomp.value, bd);
      AddAllBook(s, PyStr(NameOf(e)), ms, |ms|, e.orig.value, e.recomp.value, bd);
      RecordAllKeeps(s.book, ms, |ms|, e.orig.value, e.recomp.value, bd);
      assert BoundOfSome(t, rows, bd);
      forall k | 0 <= k < |b'.matched| ensures BoundOfSome(t, rows, b'.matched[k].2) {
        if k < |s.book.matched| {
          assert b'.matched[k] == b'.matched[..|s.book.matched|][k];
        }
      }
    }
  }

  lemma {:induction false} ArrayFoldKeeps(t: Table, layout: int -> Option<ArrayLayout>, s0: ArrayState, rows: seq<Entity>, n: nat)
    requires PendingValid(s0.p) && forall i :: 0 <= i < |rows| ==> Matched(rows[i])
    requires ArrayInv(s0.book) && s0.book.matched == [] && n <= |rows| && ArrayFold(t, layout, s0, rows[..n]).Ok?
    ensures ArrayInv(ArrayFold(t, layout, s0, rows[..n]).value.book)
    ensures BoundsFrom(t, rows, ArrayFold(t, layout, s0, rows[..n]).value.book)
  {
    if n > 0 {
      assert rows[..n][..n - 1] == rows[..n - 1];
      ArrayFoldKeeps(t, layout, s0, rows, n - 1);
      assert rows[..n][n - 1] == rows[n - 1];
      ArrayStepKeeps(t, layout, rows, n - 1, ArrayFold(t, layout, s0, rows[..n - 1]).value);
    }
  }

  /**
   * _match_array_elements: no recomp element address is matched twice, and
   * every orig element address it attaches lies below the bound of its own
   * array, that is below both `orig + size` and the next orig address.
   */
  lemma ArrayElementsBounded(t: Table, layout: int -> Option<ArrayLayout>)
    requires WellFormed(t) && ArrayPending(t, layout).Ok?
    ensures var ms := ArrayPending(t, layout).value.book.matched;
      && (forall i, j :: 0 <= i < j < |ms| ==> ms[i].1 != ms[j].1)
      && (forall i :: 0 <= i < |ms| ==> ms[i].0 < ms[i].2 && BoundOfSome(t, MatchesByType(t, DATA), ms[i].2))
  {
    NoPendingValid();
    var rows := MatchesByType(t, DATA);
    assert rows[..|rows|] == rows;
    ArrayFoldKeeps(t, layout, ArrayState(NoPending, Book({}, [])), rows, |rows|);
  }

  // ---- the pass ----

  /** `_add_match_in_array`, on the batch and the `seen_recomp` set. */
  method AddMatchInArray(batch: EntityBatch, seen: set<int>, name: string, o: int, r: int, bound: int,
                         ghost s: ArrayState) returns (seen': set<int>, ghost s': ArrayState)
    requires batch.Valid() && s.p == batch.Snapshot() && s.book.seen == seen
    modifies batch
    ensures batch.Valid()
    ensures s' == AddInArray(s, name, o, r, bound) && s'.p == batch.Snapshot() && s'.book.seen == seen'
  {
    s' := AddInArray(s, name, o, r, bound);
    seen' := seen;
    if r in seen {
      return;
    }
    seen' := seen + {r};
    assert TypeTag(map["name" := JStr(name)]) == Ok(None);
    StageOn(batch, SetRecompKind, r, map["name" := JStr(name)]);
    if o < bound {
      MatchOn(batch, o, r);
    }
  }

  /** The inner loop over one array's expanded elements. */
  method AddArray(batch: EntityBatch, seen: set<int>, base: string, ms: seq<Member>, o: int, r: int, bound: int,
                  ghost s: ArrayState) returns (seen': set<int>, ghost s': ArrayState)
    requires batch.Valid() && s.p == batch.Snapshot() && s.book.seen == seen
    modifies batch
    ensures batch.Valid()
    ensures s' == AddAll(s, base, ms, |ms|, o, r, bound) && s'.p == batch.Snapshot() && s'.book.seen == seen'
  {
    seen', s' := seen, s;
    var i := 0;
    while i < |ms|
      invariant 0 <= i <= |ms| && batch.Valid()
      invariant s' == AddAll(s, base, ms, i, o, r, bound) && s'.p == batch.Snapshot() && s'.book.seen == seen'
    {
      AddAllStep(s, base, ms, i, o, r, bound);
      seen', s' := AddMatchInArray(batch, seen', base + ms[i].name, Shifted(o, ms[i]), Shifted(r, ms[i]), bound, s');
      i := i + 1;
    }
  }

  /** One matched DATA entity of the outer loop. */
  method ArrayEntity(t: Table, layout: int -> Option<ArrayLayout>, batch: EntityBatch, seen: set<int>, e: Entity,
                     ghost s: ArrayState) returns (ok: bool, seen': set<int>, ghost s': ArrayState)
    requires batch.Valid() && s.p == batch.Snapshot() && s.book.seen == seen && Matched(e)
    modifies batch
    ensures batch.Valid()
    ensures ok <==> ArrayStep(t, layout, s, e).Ok?
    ensures ok ==> ArrayStep(t, layout, s, e) == Ok(s') && s'.p == batch.Snapshot() && s'.book.seen == seen'
  {
    seen', s' := seen, s;
    var lay := layout(e.recomp.value);
    if lay.None? {
      return true, seen', s';
    }
    var end := EndOf(e.orig.value, SizeOf(e));
    if end.Err? {
      return false, seen', s';
    }
    var bound := end.value;
    var next := NextOrigAddr(t, e.orig.value);
    if next.Some? && next.value < bound {
      bound := next.value;
    }
    var base := PyStr(NameOf(e));
    var ms := Expand(lay.value);
    seen', s' := AddArray(batch, seen, base, ms, e.orig.value, e.recomp.value, bound, s);
    ok := true;
  }

  /** The loop of `_match_array_elements` over the matched DATA entities, staging into the batch. */
  method ArrayLoop(t: Table, layout: int -> Option<ArrayLayout>, batch: EntityBatch, rows: seq<Entity>,
                   ghost s0: ArrayState) returns (ok: bool, ghost s: ArrayState)
    requires batch.Valid() && s0.p == batch.Snapshot() && s0.book == Book({}, []) && PendingValid(s0.p)
    requires forall k :: 0 <= k < |rows| ==> Matched(rows[k])
    modifies batch
    ensures batch.Valid()
    ensures ok <==> ArrayFold(t, layout, s0, rows).Ok?
    ensures ok ==> ArrayFold(t, layout, s0, rows) == Ok(s) && s.p == batch.Snapshot()
  {
    var seen: set<int> := {};
    s := s0;
    var i := 0;
    assert rows[..0] == [];
    while i < |rows|
      invariant 0 <= i <= |rows| && batch.Valid()
      invariant ArrayFold(t, layout, s0, rows[..i]) == Ok(s)
      invariant s.p == batch.Snapshot() && s.book.seen == seen
    {
      ArrayFoldSnoc(t, layout, s0, rows, i);
      ok, seen, s := ArrayEntity(t, layout, batch, seen, rows[i], s);
      if !ok {
        ArrayFoldErrSticks(t, layout, s0, rows, i + 1);
        return;
      }
      i := i + 1;
    }
    assert rows[..i] == rows;
    ok := true;
  }

  /**
   * _match_array_elements: the batch is committed after the loop, so an
   * exception inside it commits nothing.
   */
  method MatchArrayElements(db: EntityDb, layout: int -> Option<ArrayLayout>) returns (r: Result<bool>)
    requires db.Valid()
    modifies db`table, db`types, db`labels
    ensures db.Valid()
    ensures ArrayPending(old(db.table), layout).Err? ==>
      r == Err(ArrayPending(old(db.table), layout).error) && db.table == old(db.table)
    ensures ArrayPending(old(db.table), layout).Ok? ==>
      r.Ok? && (db.table, r.value) == CommitPending(old(db.table), ArrayPending(old(db.table), layout).value.p)
  {
    NoPendingValid();
    var t := db.table;
    var rows := MatchesByType(t, DATA);
    var batch := new EntityBatch(db);
    ghost var s0 := ArrayState(batch.Snapshot(), Book({}, []));
    var ok;
    ghost var s;
    ok, s := ArrayLoop(t, layout, batch, rows, s0);
    if !ok {
      return Err(TypeError);
    }
    var committed := CommitOn(batch);
    r := Ok(committed);
  }
}

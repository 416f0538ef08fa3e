/**
 * Thunk matching of the comparison core. A thunk is a `jmp` stub whose
 * target is a function; a recomp thunk is named after its target, and an
 * orig thunk whose target is already matched is paired with the earliest
 * recomp thunk that jumps to the matched recomp function and not yet taken.
 *
 * Both thunk lists are parameters: pairs of (thunk address, target address)
 * in the order the binary lists them.
 */
module CoreThunks {
  import opened Wrappers
  import opened JsonBag
  import opened PyDict
  import opened CompareDb
  import opened EntityBatches

  /** One entry of a binary's thunk list. */
  datatype Thunk = Thunk(addr: int, target: int)

  /** `f"Thunk of '{name}'"`. */
  function ThunkName(name: Value): string { "Thunk of '" + PyStr(name) + "'" }

  /** `type=FUNCTION, size=5, name=...`. */
  function ThunkKwargs(name: Value): (kw: Bag)
    ensures TypeTag(kw) == Ok(Some(FUNCTION))
  {
    assert TypeFromValue("function") == Some(FUNCTION);
    map["type" := TypeJson(FUNCTION), "size" := JInt(5), "name" := JStr(ThunkName(name))]
  }

  const SkipKwargs: Bag := map["skip" := JBool(true)]

  // ---- the first loop: name the recomp thunks ----

  /**
   * The insert_recomp row of one recomp thunk: none when the table has no
   * entity at its target, AssertionError when that entity has no name.
   */
  function RecompThunkRow(t: Table, th: Thunk): (r: Result<seq<(int, Bag)>>)
    requires WellFormed(t)
    ensures r == Ok([]) <==> GetByRecomp(t, th.target, true).None?
    ensures r.Err? <==> GetByRecomp(t, th.target, true).Some? && NameOf(GetByRecomp(t, th.target, true).value) == JNull
    ensures r.Ok? && r.value != [] ==>
      && RecompUsed(t, th.target)
      && r.value == [(th.addr, ThunkKwargs(NameOf(GetByRecomp(t, th.target, true).value)))]
    ensures r.Ok? ==> TypesValid(r.value)
  {
    match GetByRecomp(t, th.target, true)
    case None => Ok([])
    case Some(f) =>
      if NameOf(f) == JNull then Err(AssertionError)
      else Ok([(th.addr, ThunkKwargs(NameOf(f)))])
  }

  /** The outcome of each recomp thunk, in order. */
  function RowResults(t: Table, ths: seq<Thunk>): (cs: seq<Result<seq<(int, Bag)>>>)
    requires WellFormed(t)
    ensures |cs| == |ths| && forall i :: 0 <= i < |ths| ==> cs[i] == RecompThunkRow(t, ths[i])
    ensures RowsShaped(cs)
  {
    seq(|ths|, i requires 0 <= i < |ths| => RecompThunkRow(t, ths[i]))
  }

  /** Each outcome is an error, no row, or one row with a valid type. */
  predicate RowsShaped(cs: seq<Result<seq<(int, Bag)>>>)
  {
    forall i :: 0 <= i < |cs| && cs[i].Ok? ==> |cs[i].value| <= 1 && TypesValid(cs[i].value)
  }

  /** The rows of a run of outcomes, or the first error, which ends it. */
  function ConcatRows(cs: seq<Result<seq<(int, Bag)>>>): (r: Result<seq<(int, Bag)>>)
    requires RowsShaped(cs)
    ensures r.Ok? ==> TypesValid(r.value)
  {
    if cs == [] then Ok([])
    else
      match ConcatRows(cs[..|cs| - 1])
      case Err(e) => Err(e)
      case Ok(rows) =>
        match cs[|cs| - 1]
        case Err(e) => Err(e)
        case Ok(row) => Ok(rows + row)
  }

  /** The insert_recomp rows of the first loop, or the error that ends it. */
  function RecompThunkRows(t: Table, ths: seq<Thunk>): (r: Result<seq<(int, Bag)>>)
    requires WellFormed(t)
    ensures r.Ok? ==> TypesValid(r.value)
  {
    ConcatRows(RowResults(t, ths))
  }

  lemma {:induction false} ConcatRowsErrSticks(cs: seq<Result<seq<(int, Bag)>>>, i: nat)
    requires RowsShaped(cs) && i <= |cs| && ConcatRows(cs[..i]).Err?
    ensures ConcatRows(cs).Err?
    decreases |cs| - i
  {
    if i < |cs| {
      assert cs[..i + 1][..i] == cs[..i];
      ConcatRowsErrSticks(cs, i + 1);
    } else {
      assert cs[..i] == cs;
    }
  }

  lemma ConcatRowsStep(cs: seq<Result<seq<(int, Bag)>>>, i: nat)
    requires RowsShaped(cs) && i < |cs|
    ensures RowsShaped(cs[..i]) && RowsShaped(cs[..i + 1])
    ensures ConcatRows(cs[..i + 1]) ==
      match ConcatRows(cs[..i])
      case Err(e) => Err(e)
      case Ok(rows) => (match cs[i] case Err(e) => Err(e) case Ok(row) => Ok(rows + row))
  {
    assert cs[..i + 1][..i] == cs[..i];
  }

  /** A run fails exactly when one of its outcomes is an error. */
  lemma {:induction false} ConcatRowsErrIff(cs: seq<Result<seq<(int, Bag)>>>)
    requires RowsShaped(cs)
    ensures ConcatRows(cs).Err? <==> exists i :: 0 <= i < |cs| && cs[i].Err?
  {
    if cs != [] {
      var pre := cs[..|cs| - 1];
      ConcatRowsErrIff(pre);
      if exists i :: 0 <= i < |cs| && cs[i].Err? {
        var i :| 0 <= i < |cs| && cs[i].Err?;
        if i < |pre| { assert pre[i] == cs[i]; }
      }
      if exists i :: 0 <= i < |pre| && pre[i].Err? {
        var i :| 0 <= i < |pre| && pre[i].Err?;
        assert pre[i] == cs[i];
      }
    }
  }

  /** The rows of a successful run are exactly the rows of its outcomes. */
  lemma {:induction false} ConcatRowsExact(cs: seq<Result<seq<(int, Bag)>>>)
    requires RowsShaped(cs) && ConcatRows(cs).Ok?
    ensures forall a, kw :: (a, kw) in ConcatRows(cs).value <==> exists i :: 0 <= i < |cs| && cs[i] == Ok([(a, kw)])
  {
    if cs != [] {
      var pre := cs[..|cs| - 1];
      ConcatRowsExact(pre);
      var rows, row := ConcatRows(pre).value, cs[|cs| - 1].value;
      forall a, kw ensures (a, kw) in rows + row <==> exists i :: 0 <= i < |cs| && cs[i] == Ok([(a, kw)]) {
        if exists i :: 0 <= i < |cs| && cs[i] == Ok([(a, kw)]) {
          var i :| 0 <= i < |cs| && cs[i] == Ok([(a, kw)]);
          if i < |pre| { assert pre[i] == cs[i]; }
        }
        if exists i :: 0 <= i < |pre| && pre[i] == Ok([(a, kw)]) {
          var i :| 0 <= i < |pre| && pre[i] == Ok([(a, kw)]);
          assert pre[i] == cs[i];
        }
        if row != [] {
          assert row == [row[0]];
        }
      }
    }
  }

  /**
   * The first loop fails exactly when some recomp thunk's target has no
   * name; otherwise its rows are exactly the rows of the recomp thunks whose
   * target the table knows, each named "Thunk of '<target name>'".
   */
  lemma RecompThunkRowsExact(t: Table, ths: seq<Thunk>)
    requires WellFormed(t)
    ensures RecompThunkRows(t, ths).Err? <==> exists i :: 0 <= i < |ths| && RecompThunkRow(t, ths[i]).Err?
    ensures RecompThunkRows(t, ths).Ok? ==> forall a, kw :: (a, kw) in RecompThunkRows(t, ths).value <==>
      exists i :: 0 <= i < |ths| && RecompThunkRow(t, ths[i]) == Ok([(a, kw)])
  {
    var cs := RowResults(t, ths);
    ConcatRowsErrIff(cs);
    if ConcatRows(cs).Ok? {
      ConcatRowsExact(cs);
    }
  }

  lemma PStageAllSnoc(p: Pending, kind: StageKind, rows: seq<(int, Bag)>, a: int, kw: Bag)
    requires PendingValid(p) && TypesValid(rows) && TypeTag(kw).Ok?
    ensures TypesValid(rows + [(a, kw)])
    ensures PStageAll(p, kind, rows + [(a, kw)]) == PStage(PStageAll(p, kind, rows), kind, a, kw)
  {
    assert (rows + [(a, kw)])[..|rows|] == rows;
  }

  // ---- the second loop: group the recomp thunks by target ----

  /** `recomp_thunks.setdefault(func_addr, []).append(thunk_addr)`, over the whole list. */
  function Group(ths: seq<Thunk>): (g: map<int, seq<int>>)
    ensures NonEmptyGroups(g)
  {
    if ths == [] then map[]
    else
      var last := ths[|ths| - 1];
      var g := Group(ths[..|ths| - 1]);
      g[last.target := GroupAt(g, last.target) + [last.addr]]
  }

  function GroupAt(g: map<int, seq<int>>, x: int): seq<int>
  {
    if x in g then g[x] else []
  }

  predicate NonEmptyGroups(g: map<int, seq<int>>)
  {
    forall x :: x in g ==> g[x] != []
  }

  /** The thunks jumping to `x`, in list order. */
  function ThunksTo(ths: seq<Thunk>, x: int): seq<int>
  {
    if ths == [] then []
    else
      var last := ths[|ths| - 1];
      ThunksTo(ths[..|ths| - 1], x) + (if last.target == x then [last.addr] else [])
  }

  /** The group of a target lists every thunk to it, in list order. */
  lemma {:induction false} GroupLists(ths: seq<Thunk>, x: int)
    ensures GroupAt(Group(ths), x) == ThunksTo(ths, x)
  {
    if ths != [] {
      GroupLists(ths[..|ths| - 1], x);
    }
  }

  // ---- the third loop: pair the orig thunks ----

  /**
   * The state of the third loop: the batch's pending changes, the groups
   * not yet consumed, and the (orig thunk, recomp thunk, recomp target)
   * matches made so far.
   */
  datatype ThunkState = ThunkState(p: Pending, groups: map<int, seq<int>>, matched: seq<(int, int, int)>)

  ghost predicate StateValid(s: ThunkState)
  {
    PendingValid(s.p) && NonEmptyGroups(s.groups)
  }

  /** A matched target with no recomp thunk left: an unmatched "Thunk of" entity. */
  function InsertThunk(s: ThunkState, a: int, name: Value): (r: ThunkState)
    requires StateValid(s)
    ensures StateValid(r) && r.groups == s.groups && r.matched == s.matched && r.p.origSet == s.p.origSet
  {
    s.(p := PStage(s.p, InsertOrigKind, a, ThunkKwargs(name)))
  }

  /** `recomp_thunks[x].pop(0)`, deleting the key once its list is empty. */
  function Pop(g: map<int, seq<int>>, x: int): (r: map<int, seq<int>>)
    requires NonEmptyGroups(g) && x in g
    ensures NonEmptyGroups(r)
    ensures GroupAt(r, x) == g[x][1..]
    ensures forall y :: y != x ==> GroupAt(r, y) == GroupAt(g, y)
  {
    var rest := g[x][1..];
    if rest == [] then g - {x} else g[x := rest]
  }

  /** Pop the earliest recomp thunk to `x`, match `a` to it and stage skip=True on `a`. */
  function Take(s: ThunkState, a: int, x: int): (r: ThunkState)
    requires StateValid(s) && x in s.groups
    ensures StateValid(r)
    ensures r.matched == s.matched + [(a, s.groups[x][0], x)]
    ensures r.groups == Pop(s.groups, x)
    ensures r.p.origSet == Stage(s.p.origSet, a, SkipKwargs)
  {
    var front := s.groups[x][0];
    assert TypeTag(SkipKwargs) == Ok(None);
    var p := PStage(PMatch(s.p, a, front), SetOrigKind, a, SkipKwargs);
    ThunkState(p, Pop(s.groups, x), s.matched + [(a, front, x)])
  }

  /** One orig thunk. */
  function OrigThunkStep(t: Table, s: ThunkState, th: Thunk): (r: Result<ThunkState>)
    requires StateValid(s)
    ensures r.Ok? ==> StateValid(r.value)
  {
    match GetByOrig(t, th.target, true)
    case None => Ok(s)
    case Some(f) =>
      if f.recomp.None? then Ok(s)
      else if f.recomp.value !in s.groups then
        if NameOf(f) == JNull then Err(AssertionError)
        else Ok(InsertThunk(s, th.addr, NameOf(f)))
      else Ok(Take(s, th.addr, f.recomp.value))
  }

  function OrigThunkFold(t: Table, s0: ThunkState, ths: seq<Thunk>): (r: Result<ThunkState>)
    requires StateValid(s0)
    ensures r.Ok? ==> StateValid(r.value)
  {
    if ths == [] then Ok(s0)
    else
      match OrigThunkFold(t, s0, ths[..|ths| - 1])
      case Err(e) => Err(e)
      case Ok(s) => OrigThunkStep(t, s, ths[|ths| - 1])
  }

  lemma {:induction false} OrigThunkFoldErrSticks(t: Table, s0: ThunkState, ths: seq<Thunk>, i: nat)
    requires StateValid(s0) && i <= |ths| && OrigThunkFold(t, s0, ths[..i]).Err?
    ensures OrigThunkFold(t, s0, ths).Err?
    decreases |ths| - i
  {
    if i < |ths| {
      assert ths[..i + 1][..i] == ths[..i];
      OrigThunkFoldErrSticks(t, s0, ths, i + 1);
    } else {
      assert ths[..i] == ths;
    }
  }

  /** The recomp thunks taken for target `x`, in the order they were taken. */
  function Taken(ms: seq<(int, int, int)>, x: int): seq<int>
  {
    if ms == [] then []
    else
      var last := ms[|ms| - 1];
      Taken(ms[..|ms| - 1], x) + (if last.2 == x then [last.1] else [])
  }

  /** The orig thunk of a match carries a staged skip flag. */
  predicate SkipStaged(d: Staged, a: int)
  {
    Get(d, a).Some? && "skip" in Get(d, a).value && Get(d, a).value["skip"] == JBool(true)
  }

  /** What was taken for a target followed by what remains is that target's original group. */
  ghost predicate Accounted(matched: seq<(int, int, int)>, groups: map<int, seq<int>>, g0: map<int, seq<int>>)
  {
    forall x :: Taken(matched, x) + GroupAt(groups, x) == GroupAt(g0, x)
  }

  /** Every matched orig thunk is staged with skip=True. */
  ghost predicate Skipped(s: ThunkState)
  {
    forall i :: 0 <= i < |s.matched| ==> SkipStaged(s.p.origSet, s.matched[i].0)
  }

  lemma PopAccounted(matched: seq<(int, int, int)>, g: map<int, seq<int>>, a: int, x: int, g0: map<int, seq<int>>)
    requires NonEmptyGroups(g) && x in g && Accounted(matched, g, g0)
    ensures Accounted(matched + [(a, g[x][0], x)], Pop(g, x), g0)
  {
    var m' := matched + [(a, g[x][0], x)];
    assert m'[..|m'| - 1] == matched;
    forall y ensures Taken(m', y) + GroupAt(Pop(g, x), y) == GroupAt(g0, y) {
      if y == x {
        assert Taken(m', y) == Taken(matched, y) + [g[x][0]];
        assert [g[x][0]] + g[x][1..] == g[x];
        assert Taken(matched, y) + [g[x][0]] + g[x][1..] == Taken(matched, y) + g[x];
      } else {
        assert Taken(m', y) == Taken(matched, y);
      }
    }
  }

  lemma TakeSkipped(s: ThunkState, a: int, x: int)
    requires StateValid(s) && x in s.groups && Skipped(s)
    ensures Skipped(Take(s, a, x))
  {
    var s' := Take(s, a, x);
    forall i | 0 <= i < |s'.matched| ensures SkipStaged(s'.p.origSet, s'.matched[i].0) {
      var b := s'.matched[i].0;
      if b != a {
        assert i < |s.matched| && s.matched[i].0 == b;
        assert SkipStaged(s.p.origSet, b);
      }
    }
  }

  /** One step keeps both facts. */
  lemma OrigThunkStepKeeps(t: Table, s: ThunkState, th: Thunk, g0: map<int, seq<int>>)
    requires StateValid(s) && OrigThunkStep(t, s, th).Ok? && Accounted(s.matched, s.groups, g0) && Skipped(s)
    ensures Accounted(OrigThunkStep(t, s, th).value.matched, OrigThunkStep(t, s, th).value.groups, g0)
    ensures Skipped(OrigThunkStep(t, s, th).value)
  {
    var f := GetByOrig(t, th.target, true);
    if f.Some? && f.value.recomp.Some? && f.value.recomp.value in s.groups {
      PopAccounted(s.matched, s.groups, th.addr, f.value.recomp.value, g0);
      TakeSkipped(s, th.addr, f.value.recomp.value);
    }
  }

  /**
   * Over the whole loop: for every recomp target, the recomp thunks taken for
   * it are a prefix of its group, in list order, followed by the ones left;
   * so each recomp thunk is matched at most once and always the earliest one
   * left. Every matched orig thunk is staged with skip=True.
   */
  lemma {:induction false} OrigThunkFoldKeeps(t: Table, s0: ThunkState, ths: seq<Thunk>)
    requires StateValid(s0) && s0.matched == [] && OrigThunkFold(t, s0, ths).Ok?
    ensures Accounted(OrigThunkFold(t, s0, ths).value.matched, OrigThunkFold(t, s0, ths).value.groups, s0.groups)
    ensures Skipped(OrigThunkFold(t, s0, ths).value)
  {
    if ths != [] {
      OrigThunkFoldKeeps(t, s0, ths[..|ths| - 1]);
      OrigThunkStepKeeps(t, OrigThunkFold(t, s0, ths[..|ths| - 1]).value, ths[|ths| - 1], s0.groups);
    }
  }

  /** The whole batch of _match_thunks, or the assertion that discards it. */
  function ThunksPending(t: Table, recompThs: seq<Thunk>, origThs: seq<Thunk>): (r: Result<ThunkState>)
    requires WellFormed(t)
    ensures r.Ok? ==> StateValid(r.value)
  {
    match RecompThunkRows(t, recompThs)
    case Err(e) => Err(e)
    case Ok(rows) =>
      NoPendingValid();
      OrigThunkFold(t, ThunkState(PStageAll(NoPending, InsertRecompKind, rows), Group(recompThs), []), origThs)
  }

  /**
   * Each recomp thunk is taken at most once, earliest first: for every target
   * the recomp thunks matched to orig thunks are a prefix of the thunks that
   * jump to it, in list order.
   */
  lemma ThunksTakenInOrder(t: Table, recompThs: seq<Thunk>, origThs: seq<Thunk>, x: int)
    requires WellFormed(t) && ThunksPending(t, recompThs, origThs).Ok?
    ensures var s := ThunksPending(t, recompThs, origThs).value;
      Taken(s.matched, x) + GroupAt(s.groups, x) == ThunksTo(recompThs, x)
  {
    NoPendingValid();
    var rows := RecompThunkRows(t, recompThs).value;
    var s0 := ThunkState(PStageAll(NoPending, InsertRecompKind, rows), Group(recompThs), []);
    OrigThunkFoldKeeps(t, s0, origThs);
    GroupLists(recompThs, x);
  }

  // ---- the pass ----

  /** One recomp thunk of the first loop. */
  method NameRecompThunk(t: Table, batch: EntityBatch, th: Thunk, ghost rows: seq<(int, Bag)>)
    returns (ok: bool, ghost rows': seq<(int, Bag)>)
    requires WellFormed(t) && batch.Valid() && TypesValid(rows)
    requires batch.Snapshot() == PStageAll(NoPending, InsertRecompKind, rows)
    modifies batch
    ensures batch.Valid()
    ensures ok <==> RecompThunkRow(t, th).Ok?
    ensures ok ==> rows' == rows + RecompThunkRow(t, th).value && TypesValid(rows')
    ensures ok ==> batch.Snapshot() == PStageAll(NoPending, InsertRecompKind, rows')
  {
    NoPendingValid();
    rows' := rows;
    var f := GetByRecomp(t, th.target, true);
    if f.None? {
      assert rows + [] == rows;
      return true, rows';
    }
    if NameOf(f.value) == JNull {
      return false, rows';
    }
    var kw := ThunkKwargs(NameOf(f.value));
    StageOn(batch, InsertRecompKind, th.addr, kw);
    PStageAllSnoc(NoPending, InsertRecompKind, rows, th.addr, kw);
    rows' := rows + [(th.addr, kw)];
    ok := true;
  }

  /** The first loop: stage the names of the recomp thunks, or stop at the failed assertion. */
  method NameRecompThunks(t: Table, batch: EntityBatch, ths: seq<Thunk>) returns (ok: bool)
    requires WellFormed(t) && batch.Valid() && batch.Empty()
    modifies batch
    ensures batch.Valid()
    ensures ok <==> RecompThunkRows(t, ths).Ok?
    ensures ok ==> (NoPendingValid(); batch.Snapshot() == PStageAll(NoPending, InsertRecompKind, RecompThunkRows(t, ths).value))
  {
    NoPendingValid();
    ghost var cs := RowResults(t, ths);
    ghost var rows: seq<(int, Bag)> := [];
    var i := 0;
    while i < |ths|
      invariant 0 <= i <= |ths| && batch.Valid()
      invariant ConcatRows(cs[..i]) == Ok(rows) && TypesValid(rows)
      invariant batch.Snapshot() == PStageAll(NoPending, InsertRecompKind, rows)
    {
      ConcatRowsStep(cs, i);
      assert cs[i] == RecompThunkRow(t, ths[i]);
      var named;
      named, rows := NameRecompThunk(t, batch, ths[i], rows);
      if !named {
        ConcatRowsErrSticks(cs, i + 1);
        return false;
      }
      i := i + 1;
    }
    assert cs[..i] == cs;
    return true;
  }

  /** The second loop. */
  method GroupThunks(ths: seq<Thunk>) returns (g: map<int, seq<int>>)
    ensures g == Group(ths)
  {
    g := map[];
    var i := 0;
    while i < |ths|
      invariant 0 <= i <= |ths| && g == Group(ths[..i])
    {
      assert ths[..i + 1][..i] == ths[..i];
      var x := ths[i].target;
      g := g[x := GroupAt(g, x) + [ths[i].addr]];
      i := i + 1;
    }
    assert ths[..i] == ths;
  }

  /** One orig thunk of the third loop. */
  method PairOrigThunk(t: Table, batch: EntityBatch, g: map<int, seq<int>>, th: Thunk, ghost s: ThunkState)
    returns (ok: bool, g': map<int, seq<int>>, ghost s': ThunkState)
    requires batch.Valid() && StateValid(s) && s.p == batch.Snapshot() && s.groups == g
    modifies batch
    ensures batch.Valid()
    ensures ok <==> OrigThunkStep(t, s, th).Ok?
    ensures ok ==> OrigThunkStep(t, s, th) == Ok(s') && s'.p == batch.Snapshot() && s'.groups == g'
  {
    g', s' := g, s;
    var f := GetByOrig(t, th.target, true);
    if f.None? || f.value.recomp.None? {
      return true, g', s';
    }
    var x := f.value.recomp.value;
    if x !in g {
      if NameOf(f.value) == JNull {
        return false, g', s';
      }
      StageOn(batch, InsertOrigKind, th.addr, ThunkKwargs(NameOf(f.value)));
      s' := InsertThunk(s, th.addr, NameOf(f.value));
      return true, g', s';
    }
    var front := g[x][0];
    g' := Pop(g, x);
    MatchOn(batch, th.addr, front);
    assert TypeTag(SkipKwargs) == Ok(None);
    StageOn(batch, SetOrigKind, th.addr, SkipKwargs);
    s' := Take(s, th.addr, x);
    ok := true;
  }

  /**
   * _match_thunks: one batch over the three loops. A failed assertion leaves
   * the `with` block by an exception, so nothing is committed and the error
   * is returned; otherwise the result is the commit's outcome.
   */
  method MatchThunks(db: EntityDb, recompThs: seq<Thunk>, origThs: seq<Thunk>) returns (r: Result<bool>)
    requires db.Valid()
    modifies db`table, db`types, db`labels
    ensures db.Valid()
    ensures ThunksPending(old(db.table), recompThs, origThs).Err? ==>
      r == Err(AssertionError) && db.table == old(db.table)
    ensures ThunksPending(old(db.table), recompThs, origThs).Ok? ==>
      r.Ok? && (db.table, r.value) == CommitPending(old(db.table), ThunksPending(old(db.table), recompThs, origThs).value.p)
  {
    var t := db.table;
    var batch := new EntityBatch(db);
    var named := NameRecompThunks(t, batch, recompThs);
    if !named {
      DiscardOn(batch);
      return Err(AssertionError);
    }
    var g := GroupThunks(recompThs);
    ghost var s0 := ThunkState(batch.Snapshot(), g, []);
    ghost var s := s0;
    var i := 0;
    while i < |origThs|
      invariant 0 <= i <= |origThs| && batch.Valid() && batch.base == db && db.table == t
      invariant StateValid(s0) && OrigThunkFold(t, s0, origThs[..i]) == Ok(s)
      invariant StateValid(s) && s.p == batch.Snapshot() && s.groups == g
    {
      assert origThs[..i + 1][..i] == origThs[..i];
      var ok;
      ok, g, s := PairOrigThunk(t, batch, g, origThs[i], s);
      if !ok {
        OrigThunkFoldErrSticks(t, s0, origThs, i + 1);
        DiscardOn(batch);
        return Err(AssertionError);
      }
      i := i + 1;
    }
    assert origThs[..i] == origThs;
    var committed := CommitOn(batch);
    r := Ok(committed);
  }

  // ---------------------------------------------------------------------
  // _match_exports

  /** One entry of an export table: address and exported name. */
  datatype Export = Export(addr: int, name: string)

  /** `{name: addr for (addr, name) in exports}`. */
  function NameAddrs(exps: seq<Export>): (pairs: seq<(string, int)>)
    ensures |pairs| == |exps| && forall i :: 0 <= i < |exps| ==> pairs[i] == (exps[i].name, exps[i].addr)
  {
    seq(|exps|, i requires 0 <= i < |exps| => (exps[i].name, exps[i].addr))
  }

  /** `dict(thunks)`: thunk address -> target. */
  function ThunkPairs(ths: seq<Thunk>): (pairs: seq<(int, int)>)
    ensures |pairs| == |ths| && forall i :: 0 <= i < |ths| ==> pairs[i] == (ths[i].addr, ths[i].target)
  {
    seq(|ths|, i requires 0 <= i < |ths| => (ths[i].addr, ths[i].target))
  }

  /** An address that is a thunk stands for the function it jumps to. */
  function Redirect(thunks: map<int, int>, a: int): int
  {
    if a in thunks then thunks[a] else a
  }

  /** The match of one recomp export, if its name is exported by orig. */
  function ExportPair(origByName: map<string, int>, origThunks: map<int, int>, recompThunks: map<int, int>, e: Export)
    : Option<(int, int)>
  {
    if e.name in origByName then Some((Redirect(origThunks, origByName[e.name]), Redirect(recompThunks, e.addr)))
    else None
  }

  /** The matches of the loop, in recomp export order. */
  function ExportPairs(origExps: seq<Export>, recompExps: seq<Export>, origThs: seq<Thunk>, recompThs: seq<Thunk>)
    : (pairs: seq<(int, int)>)
  {
    if recompExps == [] then []
    else
      var rest := ExportPairs(origExps, recompExps[..|recompExps| - 1], origThs, recompThs);
      match ExportPair(DictOf(NameAddrs(origExps)), DictOf(ThunkPairs(origThs)), DictOf(ThunkPairs(recompThs)),
                       recompExps[|recompExps| - 1])
      case None => rest
      case Some(pair) => rest + [pair]
  }

  /**
   * A pair is matched exactly when some recomp export has a name that orig
   * also exports: the orig side is the address of the last orig export of
   * that name, and each side is replaced by its thunk's target when it is a
   * thunk (the last thunk entry for that address).
   */
  lemma {:induction false} ExportPairsExact(origExps: seq<Export>, recompExps: seq<Export>, origThs: seq<Thunk>, recompThs: seq<Thunk>)
    ensures forall o, r :: (o, r) in ExportPairs(origExps, recompExps, origThs, recompThs) <==>
      exists j :: 0 <= j < |recompExps| && ExportedBoth(origExps, recompExps[j], origThs, recompThs, o, r)
  {
    if recompExps != [] {
      var pre := recompExps[..|recompExps| - 1];
      ExportPairsExact(origExps, pre, origThs, recompThs);
      forall o, r ensures (o, r) in ExportPairs(origExps, recompExps, origThs, recompThs) <==>
        exists j :: 0 <= j < |recompExps| && ExportedBoth(origExps, recompExps[j], origThs, recompThs, o, r)
      {
        var e := recompExps[|recompExps| - 1];
        ExportPairMeaning(origExps, e, origThs, recompThs, o, r);
        if exists j :: 0 <= j < |recompExps| && ExportedBoth(origExps, recompExps[j], origThs, recompThs, o, r) {
          var j :| 0 <= j < |recompExps| && ExportedBoth(origExps, recompExps[j], origThs, recompThs, o, r);
          if j < |pre| { assert pre[j] == recompExps[j]; }
        }
        if exists j :: 0 <= j < |pre| && ExportedBoth(origExps, pre[j], origThs, recompThs, o, r) {
          var j :| 0 <= j < |pre| && ExportedBoth(origExps, pre[j], origThs, recompThs, o, r);
          assert pre[j] == recompExps[j];
        }
      }
    }
  }

  /** The pair a recomp export gives, stated through the last entries of the three tables. */
  ghost predicate ExportedBoth(origExps: seq<Export>, e: Export, origThs: seq<Thunk>, recompThs: seq<Thunk>, o: int, r: int)
  {
    exists a ::
      && LastPair(NameAddrs(origExps), e.name, a)
      && Resolves(ThunkPairs(origThs), a, o)
      && Resolves(ThunkPairs(recompThs), e.addr, r)
  }

  /** `a` stands for `b`: the last thunk at `a` jumps to `b`, or `a` is no thunk and `b == a`. */
  ghost predicate Resolves(thunks: seq<(int, int)>, a: int, b: int)
  {
    LastPair(thunks, a, b) || (b == a && forall i :: 0 <= i < |thunks| ==> thunks[i].0 != a)
  }

  lemma RedirectResolves(thunks: seq<(int, int)>, a: int, b: int)
    ensures Redirect(DictOf(thunks), a) == b <==> Resolves(thunks, a, b)
  {
    DictOfAt(thunks, a);
    DictOfIff(thunks, a, b);
  }

  lemma ExportPairMeaning(origExps: seq<Export>, e: Export, origThs: seq<Thunk>, recompThs: seq<Thunk>, o: int, r: int)
    ensures ExportPair(DictOf(NameAddrs(origExps)), DictOf(ThunkPairs(origThs)), DictOf(ThunkPairs(recompThs)), e) == Some((o, r))
      <==> ExportedBoth(origExps, e, origThs, recompThs, o, r)
  {
    var byName := DictOf(NameAddrs(origExps));
    RedirectResolves(ThunkPairs(recompThs), e.addr, r);
    if e.name in byName {
      DictOfIff(NameAddrs(origExps), e.name, byName[e.name]);
      RedirectResolves(ThunkPairs(origThs), byName[e.name], o);
      if ExportedBoth(origExps, e, origThs, recompThs, o, r) {
        var a :| LastPair(NameAddrs(origExps), e.name, a) && Resolves(ThunkPairs(origThs), a, o)
          && Resolves(ThunkPairs(recompThs), e.addr, r);
        DictOfIff(NameAddrs(origExps), e.name, a);
      }
    } else {
      DictOfAt(NameAddrs(origExps), e.name);
    }
  }

  /** _match_exports: one batch of matches. */
  method MatchExports(db: EntityDb, origExps: seq<Export>, recompExps: seq<Export>, origThs: seq<Thunk>, recompThs: seq<Thunk>)
    returns (ok: bool)
    requires db.Valid()
    modifies db`table, db`types, db`labels
    ensures db.Valid()
    ensures (db.table, ok) == CommitPending(old(db.table), PMatchAll(NoPending, ExportPairs(origExps, recompExps, origThs, recompThs)))
  {
    NoPendingValid();
    var byName := DictOf(NameAddrs(origExps));
    var origThunks := DictOf(ThunkPairs(origThs));
    var recompThunks := DictOf(ThunkPairs(recompThs));
    var batch := new EntityBatch(db);
    var i := 0;
    while i < |recompExps|
      invariant 0 <= i <= |recompExps| && batch.Valid() && batch.base == db
      invariant db.table == old(db.table)
      invariant batch.Snapshot() == PMatchAll(NoPending, ExportPairs(origExps, recompExps[..i], origThs, recompThs))
    {
      assert recompExps[..i + 1][..i] == recompExps[..i];
      var e := recompExps[i];
      if e.name in byName {
        var o := Redirect(origThunks, byName[e.name]);
        var r := Redirect(recompThunks, e.addr);
        MatchOn(batch, o, r);
        ghost var pairs := ExportPairs(origExps, recompExps[..i], origThs, recompThs);
        assert (pairs + [(o, r)])[..|pairs|] == pairs;
      }
      i := i + 1;
    }
    assert recompExps[..i] == recompExps;
    ok := CommitOn(batch);
  }
}

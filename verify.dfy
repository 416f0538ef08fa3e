/**
 * The consistency checks run after matching: a recomp vtable that is larger
 * than the room the original binary leaves for it, and a string annotation
 * whose text does not agree with the string entity at its address.
 */
module CompareVerify {
  import opened Wrappers
  import opened JsonBag
  import opened Bytes
  import opened CompareDb
  import opened MatchIndex
  import EntityName

  // ---------------------------------------------------------------------
  // check_vtables

  /** The warning "Recomp vtable is larger than orig vtable for <name>". */
  datatype Warning = Warning(orig: int, name: string)

  /** What happens to one vtable once its size is known. */
  datatype Plan = Skip | TooLarge | ReadWords(n: int)

  /**
   * No following orig address: skip. Less room than the size: warn without
   * reading. Otherwise read the size rounded down to whole 32-bit slots.
   */
  function PlanOf(orig: int, size: int, next: Option<int>): (p: Plan)
    ensures p.Skip? <==> next.None?
    ensures p.TooLarge? <==> next.Some? && next.value - orig < size
    ensures p.ReadWords? ==> p.n % 4 == 0 && p.n <= size && p.n <= next.value - orig && size - 4 < p.n
  {
    match next
    case None => Skip
    case Some(nx) =>
      var limit := nx - orig;
      if limit < size then TooLarge
      else ReadWords(4 * (Min(size, limit) / 4))
  }

  function Min(a: int, b: int): int { if a <= b then a else b }

  /** The i-th little-endian 32-bit word of a buffer. */
  function Word(b: byteseq, i: int): int
    requires 0 <= i < |b| / 4
  { U32(b, 4 * i) }

  /** `any(addr == 0 for addr, in struct.iter_unpack("<L", b))`. */
  predicate HasNullWord(b: byteseq)
  {
    exists i :: 0 <= i < |b| / 4 && Word(b, i) == 0
  }

  /** The scan over the words, stopping at the first null one. */
  method FindNullWord(b: byteseq) returns (found: bool)
    ensures found <==> HasNullWord(b)
  {
    found := false;
    var i := 0;
    while i < |b| / 4 && !found
      invariant 0 <= i <= |b| / 4
      invariant found <==> exists j :: 0 <= j < i && Word(b, j) == 0
    {
      found := Word(b, i) == 0;
      i := i + 1;
    }
  }

  /** `match.size` compared with an int: booleans act as 0 and 1, text raises. */
  function SizeInt(v: Value): (r: Result<int>)
    ensures v.JInt? ==> r == Ok(v.i)
    ensures v.JStr? || v.JNull? ==> r.Err?
  {
    match v
    case JInt(i) => Ok(i)
    case JBool(b) => Ok(if b then 1 else 0)
    case JNull => Err(AssertionError)
    case JStr(_) => Err(TypeError)
  }

  /**
   * One matched vtable: the assertion on its name and size, the next orig
   * address, the size test, and the null-slot test on the bytes read through
   * `read(addr, n)`, whose failure propagates.
   */
  function VtableCheck(t: Table, m: Entity, read: (int, int) -> Result<byteseq>): Result<Option<Warning>>
    requires m.orig.Some?
  {
    var o := m.orig.value;
    if NameOf(m) == JNull || SizeOf(m) == JNull then Err(AssertionError)
    else
      var w := Warning(o, PyStr(NameOf(m)));
      match NextOrigAddr(t, o)
      case None => Ok(None)
      case Some(next) =>
        match SizeInt(SizeOf(m))
        case Err(e) => Err(e)
        case Ok(size) =>
          match PlanOf(o, size, Some(next))
          case Skip => Ok(None)
          case TooLarge => Ok(Some(w))
          case ReadWords(n) =>
            match read(o, n)
            case Err(e) => Err(e)
            case Ok(b) =>
              if |b| % 4 != 0 then Err(StructError)
              else if HasNullWord(b) then Ok(Some(w)) else Ok(None)
  }

  /** The outcome of each vtable's check, in row order. */
  function Checks(t: Table, rows: seq<Entity>, read: (int, int) -> Result<byteseq>): (cs: seq<Result<Option<Warning>>>)
    requires forall i :: 0 <= i < |rows| ==> rows[i].orig.Some?
    ensures |cs| == |rows|
    ensures forall i :: 0 <= i < |rows| ==> cs[i] == VtableCheck(t, rows[i], read)
  {
    seq(|rows|, i requires 0 <= i < |rows| => VtableCheck(t, rows[i], read))
  }

  /** The warnings of a run, or the first exception raised, which ends it. */
  function Collect(cs: seq<Result<Option<Warning>>>): Result<seq<Warning>>
  {
    if cs == [] then Ok([])
    else
      match Collect(cs[..|cs| - 1])
      case Err(e) => Err(e)
      case Ok(ws) =>
        match cs[|cs| - 1]
        case Err(e) => Err(e)
        case Ok(None) => Ok(ws)
        case Ok(Some(w)) => Ok(ws + [w])
  }

  function VtableWarnings(t: Table, rows: seq<Entity>, read: (int, int) -> Result<byteseq>): Result<seq<Warning>>
    requires forall i :: 0 <= i < |rows| ==> rows[i].orig.Some?
  {
    Collect(Checks(t, rows, read))
  }

  /** A vtable that has no following typed orig row is never warned about. */
  lemma LastVtableSkipped(t: Table, m: Entity, read: (int, int) -> Result<byteseq>)
    requires m.orig.Some? && NameOf(m) != JNull && SizeOf(m) != JNull
    requires NextOrigAddr(t, m.orig.value).None?
    ensures VtableCheck(t, m, read) == Ok(None)
  {}

  /**
   * With a following address and an integer size, the check warns exactly
   * when the room is smaller than the size or, failing that, when a slot of
   * the bytes read is zero; the read length is a whole number of slots that
   * fits both the size and the room.
   */
  lemma VtableWarnsIff(t: Table, m: Entity, read: (int, int) -> Result<byteseq>)
    requires m.orig.Some? && NameOf(m) != JNull && SizeOf(m).JInt?
    requires NextOrigAddr(t, m.orig.value).Some?
    ensures var o, size, next := m.orig.value, SizeOf(m).i, NextOrigAddr(t, m.orig.value).value;
      && (next - o < size ==> VtableCheck(t, m, read) == Ok(Some(Warning(o, PyStr(NameOf(m))))))
      && (next - o >= size ==>
          var n := 4 * (size / 4);
          && n % 4 == 0 && n <= size && n <= next - o
          && (read(o, n).Ok? && |read(o, n).value| % 4 == 0 ==>
              ((VtableCheck(t, m, read) == Ok(Some(Warning(o, PyStr(NameOf(m))))))
               <==> HasNullWord(read(o, n).value))))
  {
    var o, size, next := m.orig.value, SizeOf(m).i, NextOrigAddr(t, m.orig.value).value;
    if next - o >= size {
      assert PlanOf(o, size, Some(next)) == ReadWords(4 * (size / 4));
    }
  }

  /** A warning from a vtable's check names that vtable. */
  lemma VtableCheckNamesRow(t: Table, m: Entity, read: (int, int) -> Result<byteseq>)
    requires m.orig.Some?
    ensures VtableCheck(t, m, read).Ok? && VtableCheck(t, m, read).value.Some? ==>
      VtableCheck(t, m, read).value.value.orig == m.orig.value
  {}

  predicate Warns(c: Result<Option<Warning>>) { c.Ok? && c.value.Some? }

  ghost predicate Warned(ws: seq<Warning>, o: int)
  {
    exists j :: 0 <= j < |ws| && ws[j].orig == o
  }

  /** A successful collection is the collection of all but the last check, then the last one's warning. */
  /** Collecting one more check extends the prefix's outcome by that check's. */
  lemma CollectSnoc(cs: seq<Result<Option<Warning>>>, i: nat)
    requires i < |cs|
    ensures Collect(cs[..i + 1]) ==
      match Collect(cs[..i])
      case Err(e) => Err(e)
      case Ok(ws) =>
        match cs[i]
        case Err(e) => Err(e)
        case Ok(None) => Ok(ws)
        case Ok(Some(w)) => Ok(ws + [w])
  {
    assert cs[..i + 1][..i] == cs[..i];
  }

  lemma CollectLast(cs: seq<Result<Option<Warning>>>)
    requires cs != [] && Collect(cs).Ok?
    ensures Collect(cs[..|cs| - 1]).Ok? && cs[|cs| - 1].Ok?
    ensures Collect(cs).value == Collect(cs[..|cs| - 1]).value + (if Warns(cs[|cs| - 1]) then [cs[|cs| - 1].value.value] else [])
  {
  }

  /** Collected warnings ascend, and each carries the address of one of the checks. */
  lemma {:induction false} CollectAscends(cs: seq<Result<Option<Warning>>>, origs: seq<int>)
    requires |cs| == |origs|
    requires forall i, k :: 0 <= i < k < |origs| ==> origs[i] < origs[k]
    requires forall i :: 0 <= i < |cs| && Warns(cs[i]) ==> cs[i].value.value.orig == origs[i]
    requires Collect(cs).Ok?
    ensures forall j, k :: 0 <= j < k < |Collect(cs).value| ==> Collect(cs).value[j].orig < Collect(cs).value[k].orig
    ensures forall j :: 0 <= j < |Collect(cs).value| ==> exists i :: 0 <= i < |cs| && origs[i] == Collect(cs).value[j].orig
  {
    if cs != [] {
      var n := |cs| - 1;
      var pre, opre := cs[..n], origs[..n];
      CollectAscends(pre, opre);
      CollectLast(cs);
      var ws := Collect(pre).value;
      var all := Collect(cs).value;
      forall j | 0 <= j < |ws| ensures ws[j].orig < origs[n] {
        var i :| 0 <= i < |pre| && opre[i] == ws[j].orig;
      }
      forall j | 0 <= j < |all| ensures exists i :: 0 <= i < |cs| && origs[i] == all[j].orig {
        if j < |ws| {
          var i :| 0 <= i < |pre| && opre[i] == ws[j].orig;
          assert origs[i] == all[j].orig;
        } else {
          assert origs[n] == all[j].orig;
        }
      }
    }
  }

  /** A check warns iff its address is among the collected warnings. */
  lemma {:induction false} CollectWarnedIff(cs: seq<Result<Option<Warning>>>, origs: seq<int>)
    requires |cs| == |origs|
    requires forall i, k :: 0 <= i < k < |origs| ==> origs[i] < origs[k]
    requires forall i :: 0 <= i < |cs| && Warns(cs[i]) ==> cs[i].value.value.orig == origs[i]
    requires Collect(cs).Ok?
    ensures forall i :: 0 <= i < |cs| ==> (Warns(cs[i]) <==> Warned(Collect(cs).value, origs[i]))
  {
    if cs != [] {
      var n := |cs| - 1;
      var pre, opre := cs[..n], origs[..n];
      CollectWarnedIff(pre, opre);
      CollectAscends(pre, opre);
      CollectLast(cs);
      var ws := Collect(pre).value;
      var all := Collect(cs).value;
      var last: seq<Warning> := if Warns(cs[n]) then [cs[n].value.value] else [];
      assert all == ws + last;
      forall i | 0 <= i < |cs| ensures Warns(cs[i]) <==> Warned(all, origs[i]) {
        WarnedAppend(ws, last, origs[i]);
        if i < n {
          assert pre[i] == cs[i] && opre[i] == origs[i];
          assert Warns(cs[i]) <==> Warned(ws, origs[i]);
          assert !Warned(last, origs[i]);
        } else if Warns(cs[n]) {
          assert last[0].orig == origs[n];
        } else {
          forall j | 0 <= j < |ws| ensures ws[j].orig != origs[n] {
            var k :| 0 <= k < |pre| && opre[k] == ws[j].orig;
            assert opre[k] == origs[k] < origs[n];
          }
        }
      }
    }
  }

  lemma WarnedAppend(ws: seq<Warning>, more: seq<Warning>, o: int)
    ensures Warned(ws + more, o) <==> Warned(ws, o) || Warned(more, o)
  {
    if Warned(ws + more, o) {
      var j :| 0 <= j < |ws + more| && (ws + more)[j].orig == o;
      if j >= |ws| {
        assert more[j - |ws|].orig == o;
      }
    }
    if Warned(ws, o) {
      var j :| 0 <= j < |ws| && ws[j].orig == o;
      assert (ws + more)[j].orig == o;
    }
    if Warned(more, o) {
      var j :| 0 <= j < |more| && more[j].orig == o;
      assert (ws + more)[|ws| + j].orig == o;
    }
  }

  /** Collecting checks whose warnings carry strictly ascending addresses. */
  lemma CollectOnePer(cs: seq<Result<Option<Warning>>>, origs: seq<int>)
    requires |cs| == |origs|
    requires forall i, k :: 0 <= i < k < |origs| ==> origs[i] < origs[k]
    requires forall i :: 0 <= i < |cs| && Warns(cs[i]) ==> cs[i].value.value.orig == origs[i]
    requires Collect(cs).Ok?
    ensures forall j, k :: 0 <= j < k < |Collect(cs).value| ==> Collect(cs).value[j].orig < Collect(cs).value[k].orig
    ensures forall i :: 0 <= i < |cs| ==> (Warns(cs[i]) <==> Warned(Collect(cs).value, origs[i]))
    ensures forall j :: 0 <= j < |Collect(cs).value| ==> exists i :: 0 <= i < |cs| && origs[i] == Collect(cs).value[j].orig
  {
    CollectAscends(cs, origs);
    CollectWarnedIff(cs, origs);
  }

  function OrigsOf(rows: seq<Entity>): (os: seq<int>)
    requires forall i :: 0 <= i < |rows| ==> rows[i].orig.Some?
    ensures |os| == |rows| && forall i :: 0 <= i < |rows| ==> os[i] == rows[i].orig.value
  {
    seq(|rows|, i requires 0 <= i < |rows| => rows[i].orig.value)
  }

  /**
   * A completed run warns at most once per vtable, in orig-address order,
   * and warns about a vtable exactly when its own check does.
   */
  lemma VtableWarningsOnePerVtable(t: Table, rows: seq<Entity>, read: (int, int) -> Result<byteseq>)
    requires AscendingOrig(rows)
    requires VtableWarnings(t, rows, read).Ok?
    ensures forall j, k :: 0 <= j < k < |VtableWarnings(t, rows, read).value| ==>
      VtableWarnings(t, rows, read).value[j].orig < VtableWarnings(t, rows, read).value[k].orig
    ensures forall i :: 0 <= i < |rows| ==>
      (Warns(VtableCheck(t, rows[i], read)) <==> Warned(VtableWarnings(t, rows, read).value, rows[i].orig.value))
    ensures forall j :: 0 <= j < |VtableWarnings(t, rows, read).value| ==>
      exists i :: 0 <= i < |rows| && rows[i].orig.value == VtableWarnings(t, rows, read).value[j].orig
  {
    var cs := Checks(t, rows, read);
    var os := OrigsOf(rows);
    forall i | 0 <= i < |cs| ensures Warns(cs[i]) ==> cs[i].value.value.orig == os[i] {
      VtableCheckNamesRow(t, rows[i], read);
    }
    CollectOnePer(cs, os);
  }

  /** check_vtables over the matched VTABLE rows, ascending by orig address. */
  method CheckVtables(db: EntityDb, read: (int, int) -> Result<byteseq>) returns (r: Result<seq<Warning>>)
    ensures r == VtableWarnings(db.table, MatchesByType(db.table, VTABLE), read)
  {
    var rows := MatchesByType(db.table, VTABLE);
    ghost var cs := Checks(db.table, rows, read);
    var ws: seq<Warning> := [];
    var i := 0;
    while i < |rows|
      invariant 0 <= i <= |rows|
      invariant Collect(cs[..i]) == Ok(ws)
    {
      var c := CheckVtable(db.table, rows[i], read);
      CollectSnoc(cs, i);
      assert c == cs[i];
      if c.Err? {
        assert Collect(cs[..i + 1]) == Err(c.error);
        CollectErrSticks(cs, i + 1);
        return Err(c.error);
      }
      if c.value.Some? {
        ws := ws + [c.value.value];
      }
      i := i + 1;
    }
    assert cs[..|rows|] == cs;
    r := Ok(ws);
  }

  /** One vtable: the bytes are read and scanned only when the size fits. */
  method CheckVtable(t: Table, m: Entity, read: (int, int) -> Result<byteseq>) returns (r: Result<Option<Warning>>)
    requires m.orig.Some?
    ensures r == VtableCheck(t, m, read)
  {
    var o := m.orig.value;
    if NameOf(m) == JNull || SizeOf(m) == JNull {
      return Err(AssertionError);
    }
    var w := Warning(o, PyStr(NameOf(m)));
    var next := NextOrigAddr(t, o);
    if next.None? {
      return Ok(None);
    }
    var size := SizeInt(SizeOf(m));
    if size.Err? {
      return Err(size.error);
    }
    var limit := next.value - o;
    if limit < size.value {
      return Ok(Some(w));
    }
    var n := 4 * (Min(size.value, limit) / 4);
    var b := read(o, n);
    if b.Err? {
      return Err(b.error);
    }
    if |b.value| % 4 != 0 {
      return Err(StructError);
    }
    var found := FindNullWord(b.value);
    r := if found then Ok(Some(w)) else Ok(None);
  }

  /** Once a prefix raises, every longer prefix raises the same exception. */
  lemma {:induction false} CollectErrSticks(cs: seq<Result<Option<Warning>>>, k: nat)
    requires 0 < k <= |cs| && Collect(cs[..k]).Err?
    ensures Collect(cs) == Collect(cs[..k])
    decreases |cs| - k
  {
    if k < |cs| {
      assert cs[..k + 1][..k] == cs[..k];
      CollectErrSticks(cs, k + 1);
    } else {
      assert cs[..k] == cs;
    }
  }

  // ---------------------------------------------------------------------
  // check_code_strings

  /** A string annotation of the codebase: its address, its text, and whether it is wide. */
  datatype StringAnnotation = StringAnnotation(offset: int, text: string, wide: bool)

  /** The entity type is STRING or WIDECHAR. */
  predicate IsStringType(e: Entity)
  {
    EntityTypeOf(e) == TypeJson(STRING) || EntityTypeOf(e) == TypeJson(WIDECHAR)
  }

  /** The report for one annotation, if any. */
  function CodeStringReport(t: Table, s: StringAnnotation): Option<Event>
  {
    var value := EntityName.EntityNameFromString(s.text, s.wide);
    match GetByOrig(t, s.offset, true)
    case None => None
    case Some(e) =>
      if IsStringType(e) && NameOf(e) != JStr(value) then Some(Event(InvalidUserData, s.offset)) else None
  }

  function CodeStringReports(t: Table, anns: seq<StringAnnotation>): seq<Event>
  {
    if anns == [] then []
    else
      var last := CodeStringReport(t, anns[|anns| - 1]);
      CodeStringReports(t, anns[..|anns| - 1]) + (if last.Some? then [last.value] else [])
  }

  /** The annotation disagrees with the string entity stored at its address. */
  ghost predicate Disagrees(t: Table, s: StringAnnotation)
  {
    && s.offset in t.origRows
    && IsStringType(EntityAtOrig(t, s.offset))
    && NameOf(EntityAtOrig(t, s.offset)) != JStr(EntityName.EntityNameFromString(s.text, s.wide))
  }

  ghost predicate ReportedAt(evs: seq<Event>, a: int)
  {
    exists j :: 0 <= j < |evs| && evs[j] == Event(InvalidUserData, a)
  }

  ghost predicate AnnotatedAt(t: Table, anns: seq<StringAnnotation>, a: int)
  {
    exists i :: 0 <= i < |anns| && anns[i].offset == a && Disagrees(t, anns[i])
  }

  /**
   * Every report is INVALID_USER_DATA, one per disagreeing annotation, and an
   * address is reported iff some annotation at it has an existing STRING or
   * WIDECHAR entity whose name differs from the quoted, escaped text.
   */
  lemma {:induction false} CodeStringReportsExact(t: Table, anns: seq<StringAnnotation>)
    ensures |CodeStringReports(t, anns)| <= |anns|
    ensures forall j :: 0 <= j < |CodeStringReports(t, anns)| ==> CodeStringReports(t, anns)[j].kind == InvalidUserData
    ensures forall a :: ReportedAt(CodeStringReports(t, anns), a) <==> AnnotatedAt(t, anns, a)
  {
    if anns != [] {
      var pre, last := anns[..|anns| - 1], anns[|anns| - 1];
      assert pre + [last] == anns;
      CodeStringReportsExact(t, pre);
      var evs := CodeStringReports(t, pre);
      var all := CodeStringReports(t, anns);
      assert CodeStringReport(t, last).Some? <==> Disagrees(t, last);
      forall a ensures ReportedAt(all, a) <==> AnnotatedAt(t, anns, a) {
        if ReportedAt(all, a) {
          var j :| 0 <= j < |all| && all[j] == Event(InvalidUserData, a);
          if j < |evs| {
            assert ReportedAt(evs, a);
            var i :| 0 <= i < |pre| && pre[i].offset == a && Disagrees(t, pre[i]);
            assert anns[i] == pre[i];
          } else {
            assert anns[|anns| - 1].offset == a;
          }
        }
        if AnnotatedAt(t, anns, a) {
          var i :| 0 <= i < |anns| && anns[i].offset == a && Disagrees(t, anns[i]);
          if i < |pre| {
            assert pre[i] == anns[i];
            assert AnnotatedAt(t, pre, a);
            var j :| 0 <= j < |evs| && evs[j] == Event(InvalidUserData, a);
            assert all[j] == evs[j];
          } else {
            assert all[|evs|] == Event(InvalidUserData, a);
          }
        }
      }
    }
  }

  /** check_code_strings: one report per annotation that disagrees, in annotation order. */
  method CheckCodeStrings(db: EntityDb, anns: seq<StringAnnotation>) returns (events: seq<Event>)
    ensures events == CodeStringReports(db.table, anns)
  {
    events := [];
    var i := 0;
    while i < |anns|
      invariant 0 <= i <= |anns|
      invariant events == CodeStringReports(db.table, anns[..i])
    {
      var s := anns[i];
      var value := EntityName.EntityNameFromString(s.text, s.wide);
      var e := GetByOrig(db.table, s.offset, true);
      assert anns[..i + 1][..i] == anns[..i];
      if e.Some? && IsStringType(e.value) && NameOf(e.value) != JStr(value) {
        events := events + [Event(InvalidUserData, s.offset)];
      }
      i := i + 1;
    }
    assert anns[..|anns|] == anns;
  }
}

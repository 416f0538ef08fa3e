/**
 * The decomp reader as a state machine on values: one function per step
 * of the reader, each giving the reader's next state.  The classes in
 * module Parser carry the same state in fields and are proved to follow
 * these functions.
 */
module ParserSpec {
  import opened Wrappers
  import opened Tokens

  datatype ReaderState =
    | Search | WantSig | InFunc | InTemplate | WantCurly | InGlobal
    | InFuncGlobal | InVtable | InSynthetic | InLibrary | Done

  datatype ParserError =
    | DuplicateModule | IncompatibleMarker | UnexpectedMarker | MissedEndOfFunction
    | OrphanedStaticVariable | NoSuitableName | BadNameref | NoImplementation
    | GlobalNotVariable | BogusMarker | BadDecompMarker | UnexpectedEndOfFile

  datatype Alert = Alert(line: int, code: ParserError)

  /** What the reader emits for one marker. */
  datatype Symbol =
    | PFunction(mtype: MarkerType, line: int, moduleName: string, offset: int,
                name: string, lookupByName: bool, endLine: int)
    | PVariable(mtype: MarkerType, line: int, moduleName: string, offset: int,
                name: string, isStatic: bool, parent: Option<int>)
    | PVtable(mtype: MarkerType, line: int, moduleName: string, offset: int,
              name: string, baseClass: Option<string>)
    | PString(mtype: MarkerType, line: int, moduleName: string, offset: int, text: Option<string>)

  /** The symbols of one module (all of them when none is given), in the order they were read. */
  function OfModule(syms: seq<Symbol>, moduleName: Option<string>): (r: seq<Symbol>)
    ensures forall x :: x in r <==> x in syms && (moduleName.None? || x.moduleName == moduleName.value)
    ensures moduleName.None? ==> r == syms
  {
    if syms == [] then []
    else
      var x := syms[|syms| - 1];
      OfModule(syms[..|syms| - 1], moduleName)
        + (if moduleName.None? || x.moduleName == moduleName.value then [x] else [])
  }

  // ---------------------------------------------------------------------
  // Marker queues
  // ---------------------------------------------------------------------

  /** Markers queued for the next symbol, in insertion order, keyed by Marker.Key. */
  datatype MarkerDict = MarkerDict(markers: seq<Marker>) {
    ghost predicate Valid() {
      forall i, j :: 0 <= i < j < |markers| ==> markers[i].Key() != markers[j].Key()
    }

    /** The marker stored under key k. */
    function Lookup(k: MarkerKey): (r: Option<Marker>)
      ensures r.Some? ==> r.value in markers && r.value.Key() == k
      ensures r.None? <==> forall i :: 0 <= i < |markers| ==> markers[i].Key() != k
    {
      LookupIn(markers, k)
    }

    function Query(category: MarkerCategory, moduleName: string): Option<Marker> {
      Lookup((category, moduleName, None))
    }

    /** Adds m unless its key is taken; the flag says whether it was. */
    function Insert(m: Marker): (r: (MarkerDict, bool))
      ensures r.1 <==> exists i :: 0 <= i < |markers| && markers[i].Key() == m.Key()
      ensures r.1 ==> r.0 == this
      ensures !r.1 ==> r.0.markers == markers + [m]
      ensures Valid() ==> r.0.Valid()
    {
      if Lookup(m.Key()).Some? then (this, true) else (MarkerDict(markers + [m]), false)
    }
  }

  const EmptyDict := MarkerDict([])

  function LookupIn(ms: seq<Marker>, k: MarkerKey): (r: Option<Marker>)
    ensures r.Some? ==> r.value in ms && r.value.Key() == k
    ensures r.None? <==> forall i :: 0 <= i < |ms| ==> ms[i].Key() != k
  {
    if ms == [] then None
    else if ms[0].Key() == k then Some(ms[0])
    else LookupIn(ms[1..], k)
  }

  /** Inserts the markers one after another, ignoring the flags. */
  function InsertAll(d: MarkerDict, ms: seq<Marker>): MarkerDict
    decreases |ms|
  {
    if ms == [] then d else InsertAll(d.Insert(ms[0]).0, ms[1..])
  }

  /** The first marker of ms whose key is k. */
  function FirstWithKey(ms: seq<Marker>, k: MarkerKey): Option<Marker> {
    LookupIn(ms, k)
  }

  /** Inserting never overwrites: the marker stored under a key is the first one inserted. */
  lemma {:induction false} InsertAllKeepsFirst(d: MarkerDict, ms: seq<Marker>, k: MarkerKey)
    ensures InsertAll(d, ms).Lookup(k) ==
      (if d.Lookup(k).Some? then d.Lookup(k) else FirstWithKey(ms, k))
    decreases |ms|
  {
    if ms != [] {
      var d1 := d.Insert(ms[0]).0;
      InsertAllKeepsFirst(d1, ms[1..], k);
      LookupAppend(d.markers, ms[0], k);
    }
  }

  lemma {:induction false} LookupAppend(ms: seq<Marker>, m: Marker, k: MarkerKey)
    ensures LookupIn(ms + [m], k) == if LookupIn(ms, k).Some? then LookupIn(ms, k)
                                     else if m.Key() == k then Some(m) else None
    decreases |ms|
  {
    if ms != [] {
      assert (ms + [m])[1..] == ms[1..] + [m];
      LookupAppend(ms[1..], m, k);
    }
  }

  // ---------------------------------------------------------------------
  // Scope tracking
  // ---------------------------------------------------------------------

  /** Open scopes as (name, level it was opened at), the brace level, a pending scope name. */
  datatype Curly = Curly(stack: seq<(string, int)>, level: int, pending: Option<string>, afterKeyword: bool) {
    ghost predicate Valid() {
      && level >= 0
      && (forall i :: 0 <= i < |stack| ==> 0 <= stack[i].1 < level)
      && (forall i, j :: 0 <= i < j < |stack| ==> stack[i].1 < stack[j].1)
    }
  }

  const NewCurly := Curly([], 0, None, false)

  /** Drops scopes from the top while they were opened at or above level l. */
  function KeepBelow(s: seq<(string, int)>, l: int): (r: seq<(string, int)>)
    ensures |r| <= |s| && r == s[..|r|]
  {
    if s == [] || s[|s| - 1].1 < l then s else KeepBelow(s[..|s| - 1], l)
  }

  /** On an ordered stack, KeepBelow keeps exactly the scopes opened below l. */
  lemma {:induction false} KeepBelowExact(s: seq<(string, int)>, l: int)
    requires forall i, j :: 0 <= i < j < |s| ==> s[i].1 < s[j].1
    ensures forall i :: 0 <= i < |KeepBelow(s, l)| ==> s[i].1 < l
    ensures forall i :: |KeepBelow(s, l)| <= i < |s| ==> s[i].1 >= l
    decreases |s|
  {
    if s != [] && s[|s| - 1].1 >= l {
      KeepBelowExact(s[..|s| - 1], l);
    }
  }

  function CurlyPop(c: Curly): Curly {
    var l := if c.level > 0 then c.level - 1 else c.level;
    c.(level := l, stack := KeepBelow(c.stack, l))
  }

  /** How the scope tracker reacts to one token. */
  function CurlyRead(c: Curly, t: Token): Curly {
    if t.kind == Operator then
      var c := c.(afterKeyword := false);
      if t.value == "{" then
        if c.pending.Some? then
          c.(stack := c.stack + [(c.pending.value, c.level)], pending := None, level := c.level + 1)
        else c.(level := c.level + 1)
      else if t.value == "}" then CurlyPop(c)
      else if t.value == ";" then c.(pending := None)
      else c
    else if t.kind == Identifier then
      if !c.afterKeyword then
        if t.value == "class" || t.value == "struct" || t.value == "namespace" then
          c.(afterKeyword := true)
        else c
      else c.(pending := Some(t.value))
    else c
  }

  /** The level never goes negative; scopes stay ordered and below the level. */
  lemma CurlyReadValid(c: Curly, t: Token)
    requires c.Valid()
    ensures CurlyRead(c, t).Valid()
  {
    if t.kind == Operator && t.value == "}" {
      KeepBelowExact(c.stack, if c.level > 0 then c.level - 1 else c.level);
    }
  }

  /** `}` closes every scope opened at or above the new level and keeps the rest. */
  lemma {:induction false} CloseBraceDropsInner(c: Curly, t: Token)
    requires c.Valid() && t.kind == Operator && t.value == "}"
    ensures CurlyRead(c, t).level == if c.level > 0 then c.level - 1 else 0
    ensures CurlyRead(c, t).stack == c.stack[..|CurlyRead(c, t).stack|]
    ensures forall i :: 0 <= i < |c.stack| ==>
              (i < |CurlyRead(c, t).stack| <==> c.stack[i].1 < CurlyRead(c, t).level)
  {
    var l := if c.level > 0 then c.level - 1 else 0;
    KeepBelowExact(c.stack, l);
  }

  function ScopeNames(s: seq<(string, int)>): (r: seq<string>)
    ensures |r| == |s| && forall i :: 0 <= i < |s| ==> r[i] == s[i].0
  {
    if s == [] then [] else ScopeNames(s[..|s| - 1]) + [s[|s| - 1].0]
  }

  function JoinScopes(parts: seq<string>): string {
    if |parts| == 0 then ""
    else if |parts| == 1 then parts[0]
    else JoinScopes(parts[..|parts| - 1]) + "::" + parts[|parts| - 1]
  }

  /** The open scopes joined by `::`, then the name unless it is itself an open scope. */
  function Prefix(stack: seq<(string, int)>, name: Option<string>): string {
    var scopes := ScopeNames(stack);
    if name.Some? && name.value !in scopes then JoinScopes(scopes + [name.value])
    else JoinScopes(scopes)
  }

  /** Inside `namespace Test {` a global is prefixed, and the namespace's own name is not repeated. */
  lemma NamespacePrefix()
    ensures Prefix([("Test", 0)], Some("g_var")) == "Test::g_var"
    ensures Prefix([("Test", 0)], Some("Test")) == "Test"
    ensures Prefix([], Some("g_var")) == "g_var"
  {
    assert ScopeNames([("Test", 0)]) == ["Test"];
    assert ["Test"] + ["g_var"] == ["Test", "g_var"];
    assert "g_var" != "Test" by { assert "g_var"[0] != "Test"[0]; }
    assert JoinScopes(["Test", "g_var"]) == JoinScopes(["Test"]) + "::" + "g_var";
    assert ScopeNames([]) == [];
    assert [] + ["g_var"] == ["g_var"];
  }

  // ---------------------------------------------------------------------
  // The reader's state
  // ---------------------------------------------------------------------

  datatype Reader = Reader(
    symbols: seq<Symbol>, alerts: seq<Alert>, lineNumber: int, state: ReaderState,
    tokenStack: seq<Token>, curly: Curly, fun: MarkerDict, vars: MarkerDict, tbl: MarkerDict,
    indentStops: int, functionStart: int, functionSig: string)

  const Fresh := Reader([], [], 0, Search, [], NewCurly, EmptyDict, EmptyDict, EmptyDict, 0, 0, "")

  ghost predicate Inv(r: Reader) {
    r.curly.Valid() && r.fun.Valid() && r.vars.Valid() && r.tbl.Valid()
  }

  /** Reset clears everything except the pending token stack. */
  function ResetReader(r: Reader): Reader {
    Fresh.(tokenStack := r.tokenStack)
  }

  function Warn(r: Reader, code: ParserError): Reader {
    r.(alerts := r.alerts + [Alert(r.lineNumber, code)])
  }

  function Recover(r: Reader): Reader {
    r.(state := Search, fun := EmptyDict, vars := EmptyDict, tbl := EmptyDict)
  }

  function SyntaxError(r: Reader, code: ParserError): Reader {
    Recover(Warn(r, code))
  }

  /** Queues m in d, warning if its key was already queued. */
  function Queue(r: Reader, d: MarkerDict, m: Marker): (MarkerDict, Reader) {
    var (d1, dup) := d.Insert(m);
    (d1, if dup then Warn(r, DuplicateModule) else r)
  }

  function FunctionMarker(r: Reader, m: Marker): Reader {
    var (d, r1) := Queue(r, r.fun, m);
    r1.(fun := d, state := WantSig)
  }

  function NamerefMarker(r: Reader, m: Marker): Reader {
    var (d, r1) := Queue(r, r.fun, m);
    r1.(fun := d, state := if m.IsTemplate() then InTemplate
                           else if m.IsSynthetic() then InSynthetic else InLibrary)
  }

  function VtableMarker(r: Reader, m: Marker): Reader {
    var (d, r1) := Queue(r, r.tbl, m);
    r1.(tbl := d, state := InVtable)
  }

  function VariableMarker(r: Reader, m: Marker): Reader {
    var (d, r1) := Queue(r, r.vars, m);
    r1.(vars := d, state := if r.state == InFunc || r.state == InFuncGlobal then InFuncGlobal else InGlobal)
  }

  /** One function per queued marker, in queue order. */
  function FunctionsFor(ms: seq<Marker>, start: int, sig: string, byName: bool, endLine: int): (r: seq<Symbol>)
    ensures |r| == |ms|
    ensures forall i :: 0 <= i < |ms| ==>
      r[i] == PFunction(ms[i].mtype, start, ms[i].moduleName, ms[i].offset, sig, byName, endLine)
  {
    if ms == [] then []
    else
      var m := ms[|ms| - 1];
      FunctionsFor(ms[..|ms| - 1], start, sig, byName, endLine)
        + [PFunction(m.mtype, start, m.moduleName, m.offset, sig, byName, endLine)]
  }

  /** Closes the current function; if unexpected, it is taken to have ended on the previous line. */
  function FunctionDone(r: Reader, byName: bool, unexpected: bool): Reader {
    var endLine := if unexpected then r.lineNumber - 1 else r.lineNumber;
    r.(symbols := r.symbols + FunctionsFor(r.fun.markers, r.functionStart, r.functionSig, byName, endLine),
       fun := EmptyDict, indentStops := 0, state := Search)
  }

  /** One vtable per queued marker, named by the scope prefix. */
  function VtablesFor(ms: seq<Marker>, line: int, name: string): (r: seq<Symbol>)
    ensures |r| == |ms|
    ensures forall i :: 0 <= i < |ms| ==>
      r[i] == PVtable(ms[i].mtype, line, ms[i].moduleName, ms[i].offset, name, ms[i].extra)
  {
    if ms == [] then []
    else
      var m := ms[|ms| - 1];
      VtablesFor(ms[..|ms| - 1], line, name) + [PVtable(m.mtype, line, m.moduleName, m.offset, name, m.extra)]
  }

  function VtableDone(r: Reader, className: string): Reader {
    r.(symbols := r.symbols + VtablesFor(r.tbl.markers, r.lineNumber, Prefix(r.curly.stack, Some(className))),
       tbl := EmptyDict, state := Search)
  }

  /** The symbol (or the warning) one queued variable or string marker gives. */
  function VarOut(m: Marker, isStatic: bool, fun: MarkerDict, line: int, name: string,
                  text: Option<string>): (seq<Symbol>, seq<Alert>)
  {
    if m.IsString() then ([PString(m.mtype, line, m.moduleName, m.offset, text)], [])
    else if isStatic then
      match fun.Query(FunctionCat, m.moduleName)
      case None => ([], [Alert(line, OrphanedStaticVariable)])
      case Some(f) => ([PVariable(m.mtype, line, m.moduleName, m.offset, name, true, Some(f.offset))], [])
    else ([PVariable(m.mtype, line, m.moduleName, m.offset, name, false, None)], [])
  }

  function VarOuts(ms: seq<Marker>, isStatic: bool, fun: MarkerDict, line: int, name: string,
                   text: Option<string>): (seq<Symbol>, seq<Alert>)
  {
    if ms == [] then ([], [])
    else
      var (s, a) := VarOuts(ms[..|ms| - 1], isStatic, fun, line, name, text);
      var (s1, a1) := VarOut(ms[|ms| - 1], isStatic, fun, line, name, text);
      (s + s1, a + a1)
  }

  lemma VarOutsOne(m: Marker, isStatic: bool, fun: MarkerDict, line: int, name: string, text: Option<string>)
    ensures VarOuts([m], isStatic, fun, line, name, text) == VarOut(m, isStatic, fun, line, name, text)
  {
    var ms := [m];
    assert ms[..|ms| - 1] == [];
    var (s, a) := VarOuts(ms[..|ms| - 1], isStatic, fun, line, name, text);
    assert s == [] && a == [];
    var (s1, a1) := VarOut(m, isStatic, fun, line, name, text);
    assert VarOuts(ms, isStatic, fun, line, name, text) == (s + s1, a + a1);
    assert s + s1 == s1 && a + a1 == a1;
  }

  lemma VarOutsStep(ms: seq<Marker>, i: int, isStatic: bool, fun: MarkerDict, line: int, name: string,
                    text: Option<string>)
    requires 0 <= i < |ms|
    ensures VarOuts(ms[..i + 1], isStatic, fun, line, name, text).0 ==
            VarOuts(ms[..i], isStatic, fun, line, name, text).0 + VarOut(ms[i], isStatic, fun, line, name, text).0
    ensures VarOuts(ms[..i + 1], isStatic, fun, line, name, text).1 ==
            VarOuts(ms[..i], isStatic, fun, line, name, text).1 + VarOut(ms[i], isStatic, fun, line, name, text).1
  {
    assert ms[..i + 1][..i] == ms[..i];
  }

  function VariableDone(r: Reader, name: Option<string>, text: Option<string>): Reader {
    if name.None? && text.None? then SyntaxError(r, NoSuitableName)
    else
      var (s, a) := VarOuts(r.vars.markers, r.state == InFuncGlobal, r.fun, r.lineNumber,
                            Prefix(r.curly.stack, name), text);
      r.(symbols := r.symbols + s, alerts := r.alerts + a, vars := EmptyDict,
         state := if r.state == InFuncGlobal then InFunc else Search)
  }

  /** The states in which a marker of m's kind is accepted. */
  predicate Accepts(s: ReaderState, m: Marker) {
    if m.IsRegularFunction() then s == Search || s == WantSig
    else if m.IsTemplate() then s == Search || s == InTemplate
    else if m.IsSynthetic() then s == Search || s == InSynthetic
    else if m.IsLibrary() then s == Search || s == InLibrary
    else if m.IsString() || m.IsVariable() then s == Search || s == InGlobal || s == InFunc || s == InFuncGlobal
    else if m.IsVtable() then s == Search || s == InVtable
    else false
  }

  predicate KnownMarker(m: Marker) { m.mtype != Unknown }

  /** A marker inside a function that may not be there ends the function first. */
  function CloseIfMissedEnd(r: Reader, m: Marker): Reader {
    if r.state == InFunc && !m.AllowedInFunc() then FunctionDone(Warn(r, MissedEndOfFunction), false, true)
    else r
  }

  function HandleMarker(r: Reader, m: Marker): Reader {
    if r.state == WantCurly then SyntaxError(r, UnexpectedMarker)
    else DispatchMarker(CloseIfMissedEnd(r, m), m)
  }

  /** The marker handed to the handler of its kind, if the state accepts it. */
  function DispatchMarker(r1: Reader, m: Marker): Reader {
    if !KnownMarker(m) then Warn(r1, BogusMarker)
    else if !Accepts(r1.state, m) then SyntaxError(r1, IncompatibleMarker)
    else if m.IsRegularFunction() then FunctionMarker(r1, m)
    else if m.IsExplicitByName() then NamerefMarker(r1, m)
    else if m.IsString() || m.IsVariable() then VariableMarker(r1, m)
    else VtableMarker(r1, m)
  }

  // ---------------------------------------------------------------------
  // Names taken from the token stack
  // ---------------------------------------------------------------------

  function JoinValues(ts: seq<Token>): string {
    if ts == [] then "" else JoinValues(ts[..|ts| - 1]) + ts[|ts| - 1].value
  }

  /**
   * Reads ts[i-1], ts[i-2], ... ts[0]: after `(` it records the identifier
   * before it and the tokens in front of that, up to the next token of the
   * same kind as the recorded identifier.
   */
  function FnScan(ts: seq<Token>, i: nat, recording: bool, sub: seq<Token>): seq<Token>
    requires i <= |ts|
    decreases i
  {
    if i == 0 then sub
    else
      var t := ts[i - 1];
      if recording then
        if |sub| > 0 then
          if sub[|sub| - 1].kind == t.kind then sub
          else FnScan(ts, i - 1, true, [t] + sub)
        else if t.kind == Identifier then FnScan(ts, i - 1, true, [t])
        else FnScan(ts, i - 1, true, sub)
      else FnScan(ts, i - 1, t.value == "(", sub)
  }

  function FunctionName(ts: seq<Token>): string {
    JoinValues(FnScan(ts, |ts|, false, []))
  }

  /** Reads ts[i..] left to right: the last identifier (with what follows it) before `=`, `;` or `[`. */
  function VarScan(ts: seq<Token>, i: nat, sub: seq<Token>): seq<Token>
    requires i <= |ts|
    decreases |ts| - i
  {
    if i == |ts| then sub
    else
      var t := ts[i];
      if |sub| > 0 then
        if sub[|sub| - 1].kind == Identifier && t.kind == Identifier then VarScan(ts, i + 1, [t])
        else if t.value == "*" || t.value == "&" then VarScan(ts, i + 1, [])
        else if t.value == "=" || t.value == ";" || t.value == "[" then sub
        else VarScan(ts, i + 1, sub + [t])
      else if t.kind == Identifier then VarScan(ts, i + 1, [t])
      else VarScan(ts, i + 1, sub)
  }

  function VariableName(ts: seq<Token>): string {
    JoinValues(VarScan(ts, 0, []))
  }

  /** Reads ts[i-1] ... ts[0]: the class name after `class`/`struct`, dropping any base list after `:`. */
  function VtScan(ts: seq<Token>, i: nat, sub: seq<Token>): seq<Token>
    requires i <= |ts|
    decreases i
  {
    if i == 0 then sub
    else
      var t := ts[i - 1];
      var sub1 := if t.value == ":" then [] else sub;
      if |sub1| > 0 then
        if t.value == "class" || t.value == "struct" then sub1
        else VtScan(ts, i - 1, [t] + sub1)
      else if t.kind == Identifier then VtScan(ts, i - 1, [t])
      else VtScan(ts, i - 1, sub1)
  }

  function VtableName(ts: seq<Token>): string {
    JoinValues(VtScan(ts, |ts|, []))
  }

  // ---------------------------------------------------------------------
  // One token
  // ---------------------------------------------------------------------

  /** The reader after a token, and the exception the token raised, if any. */
  datatype Step = Step(after: Reader, error: Option<Error>)

  predicate NamerefState(s: ReaderState) {
    s == WantSig || s == InSynthetic || s == InTemplate || s == InLibrary
  }

  /** Python's `s[1:-1]`. */
  function Unquote(s: string): string {
    if |s| >= 2 then s[1..|s| - 1] else ""
  }

  function AnyReturn(ts: seq<Token>): bool {
    exists i :: 0 <= i < |ts| && ts[i].value == "return"
  }

  function AnyVariableMarker(ms: seq<Marker>): bool {
    exists i :: 0 <= i < |ms| && ms[i].IsVariable()
  }

  function WantCurlyToken(r: Reader, t: Token): Reader {
    if t.value == ";" then SyntaxError(r, NoImplementation)
    else if t.value == "{" then
      r.(functionSig := FunctionName(r.tokenStack), functionStart := t.line,
         indentStops := r.curly.level, state := InFunc, tokenStack := [])
    else r.(tokenStack := r.tokenStack + [t])
  }

  function GlobalToken(r: Reader, t: Token): Step {
    if t.kind == LineComment then Step(VariableDone(r, t.note.name, None), None)
    else if t.value == ";" then
      if r.tokenStack == [] then Step(r, Some(IndexError))
      else
        var last := r.tokenStack[|r.tokenStack| - 1];
        var text := if last.kind == StringLit then Some(Unquote(last.value)) else None;
        var name := VariableName(r.tokenStack);
        if AnyVariableMarker(r.vars.markers) && AnyReturn(r.tokenStack) then
          Step(SyntaxError(r, GlobalNotVariable), None)
        else Step(VariableDone(r, Some(name), text).(tokenStack := []), None)
    else if t.kind != BlockComment then Step(r.(tokenStack := r.tokenStack + [t]), None)
    else Step(r, None)
  }

  function VtableToken(r: Reader, t: Token): Reader {
    if t.kind == LineComment && t.note.className.Some? then VtableDone(r, t.note.className.value)
    else if t.value == ";" then SyntaxError(r, NoImplementation)
    else if t.value == "{" then VtableDone(r, VtableName(r.tokenStack)).(tokenStack := [])
    else r.(tokenStack := r.tokenStack + [t])
  }

  /** A token that is neither a newline, a marker nor a nameref comment. */
  function CodeToken(r: Reader, t: Token): Step {
    var r := r.(curly := CurlyRead(r.curly, t));
    var r := if r.state == WantSig then r.(state := WantCurly) else r;
    if r.state == WantCurly then Step(WantCurlyToken(r, t), None)
    else if r.state == InFunc then
      if t.value == "}" && r.curly.level <= r.indentStops then Step(FunctionDone(r, false, false), None)
      else Step(r, None)
    else if r.state == InGlobal || r.state == InFuncGlobal then GlobalToken(r, t)
    else if r.state == InVtable then Step(VtableToken(r, t), None)
    else Step(r, None)
  }

  function ReadToken(r: Reader, t: Token): Step {
    if r.state == Done then Step(r, None)
    else
      var r := r.(lineNumber := t.line);
      if t.kind == Newline then Step(r, None)
      else if t.kind == LineComment && t.note.marker.Some? then
        var r1 := if !t.note.exact then Warn(r, BadDecompMarker) else r;
        Step(HandleMarker(r1, t.note.marker.value), None)
      else if t.kind == LineComment && NamerefState(r.state) then
        match t.note.name
        case None => Step(SyntaxError(r, BadNameref), None)
        case Some(n) => Step(FunctionDone(r.(functionSig := n, functionStart := r.lineNumber), true, false), None)
      else CodeToken(r, t)
  }

  /** Reads tokens until the first exception. */
  function ReadAll(r: Reader, ts: seq<Token>): Step
    decreases |ts|
  {
    if ts == [] then Step(r, None)
    else
      var s := ReadToken(r, ts[0]);
      if s.error.Some? then s else ReadAll(s.after, ts[1..])
  }

  function Finish(r: Reader): Reader {
    var r := if r.state != Search then Warn(r, UnexpectedEndOfFile) else r;
    r.(state := Done)
  }

  // ---------------------------------------------------------------------
  // Properties
  // ---------------------------------------------------------------------

  /** No marker may come between a function's signature and its opening brace. */
  lemma MarkerBeforeCurly(r: Reader, m: Marker)
    requires r.state == WantCurly
    ensures HandleMarker(r, m).alerts == r.alerts + [Alert(r.lineNumber, UnexpectedMarker)]
    ensures HandleMarker(r, m).state == Search
    ensures HandleMarker(r, m).fun == EmptyDict && HandleMarker(r, m).vars == EmptyDict
    ensures HandleMarker(r, m).tbl == EmptyDict
    ensures HandleMarker(r, m).symbols == r.symbols
  {
  }

  /** A marker in a state that does not accept it is an error and drops every queued marker. */
  lemma IncompatibleRecovers(r: Reader, m: Marker)
    requires r.state != WantCurly && KnownMarker(m)
    requires !Accepts(CloseIfMissedEnd(r, m).state, m)
    ensures HandleMarker(r, m).state == Search
    ensures HandleMarker(r, m).fun == EmptyDict && HandleMarker(r, m).vars == EmptyDict
    ensures HandleMarker(r, m).tbl == EmptyDict
    ensures HandleMarker(r, m).symbols == CloseIfMissedEnd(r, m).symbols
    ensures HandleMarker(r, m).alerts ==
      CloseIfMissedEnd(r, m).alerts + [Alert(r.lineNumber, IncompatibleMarker)]
  {
  }

  /** An accepted marker is queued and nothing is emitted for it yet. */
  lemma AcceptedQueues(r: Reader, m: Marker)
    requires r.state != WantCurly && KnownMarker(m)
    requires Accepts(CloseIfMissedEnd(r, m).state, m)
    ensures HandleMarker(r, m).symbols == CloseIfMissedEnd(r, m).symbols
    ensures m.IsRegularFunction() || m.IsExplicitByName() ==>
      exists i :: 0 <= i < |HandleMarker(r, m).fun.markers| && HandleMarker(r, m).fun.markers[i].Key() == m.Key()
    ensures m.IsVariable() || m.IsString() ==>
      exists i :: 0 <= i < |HandleMarker(r, m).vars.markers| && HandleMarker(r, m).vars.markers[i].Key() == m.Key()
    ensures m.IsVtable() ==>
      exists i :: 0 <= i < |HandleMarker(r, m).tbl.markers| && HandleMarker(r, m).tbl.markers[i].Key() == m.Key()
  {
    var r1 := CloseIfMissedEnd(r, m);
    var d := if m.IsRegularFunction() || m.IsExplicitByName() then r1.fun
             else if m.IsVariable() || m.IsString() then r1.vars else r1.tbl;
    var (d1, dup) := d.Insert(m);
    if !dup {
      assert d1.markers[|d.markers|] == m;
    }
  }

  /**
   * A second marker with the same key is reported as DUPLICATE_MODULE and
   * the first one stays queued.
   */
  lemma DuplicateKeepsFirst(r: Reader, m: Marker, i: int)
    requires r.state == Search || r.state == WantSig
    requires m.IsRegularFunction()
    requires 0 <= i < |r.fun.markers| && r.fun.markers[i].Key() == m.Key()
    ensures HandleMarker(r, m) == r.(alerts := r.alerts + [Alert(r.lineNumber, DuplicateModule)], state := WantSig)
  {
  }

  /**
   * Inside a function, a marker that may not appear there ends the function
   * on the previous line, with a MISSED_END_OF_FUNCTION warning.
   */
  lemma MissedEndClosesFunction(r: Reader, m: Marker)
    requires r.state == InFunc && !m.AllowedInFunc()
    ensures var out := r.symbols + FunctionsFor(r.fun.markers, r.functionStart, r.functionSig, false, r.lineNumber - 1);
            HandleMarker(r, m).symbols == out
    ensures r.alerts + [Alert(r.lineNumber, MissedEndOfFunction)] <= HandleMarker(r, m).alerts
  {
    var r1 := CloseIfMissedEnd(r, m);
    assert r1 == FunctionDone(Warn(r, MissedEndOfFunction), false, true);
    DispatchFromSearch(r1, m);
  }

  /** From the search state a marker adds no symbol and only appends alerts. */
  lemma DispatchFromSearch(r1: Reader, m: Marker)
    requires r1.state == Search
    ensures DispatchMarker(r1, m).symbols == r1.symbols
    ensures r1.alerts <= DispatchMarker(r1, m).alerts
  {
  }

  /** Closing a function emits one symbol per queued marker and empties the queue. */
  lemma FunctionDoneEmits(r: Reader, byName: bool, unexpected: bool)
    ensures var r1 := FunctionDone(r, byName, unexpected);
      && |r1.symbols| == |r.symbols| + |r.fun.markers|
      && r1.symbols[..|r.symbols|] == r.symbols
      && (forall i :: 0 <= i < |r.fun.markers| ==>
            r1.symbols[|r.symbols| + i].PFunction?
            && r1.symbols[|r.symbols| + i].offset == r.fun.markers[i].offset
            && r1.symbols[|r.symbols| + i].moduleName == r.fun.markers[i].moduleName
            && r1.symbols[|r.symbols| + i].endLine == (if unexpected then r.lineNumber - 1 else r.lineNumber))
      && r1.fun == EmptyDict && r1.state == Search && r1.indentStops == 0
  {
    var r1 := FunctionDone(r, byName, unexpected);
    assert r1.symbols[..|r.symbols|] == r.symbols;
  }

  /**
   * What the variable and string markers of a queue give: one symbol or one
   * ORPHANED_STATIC_VARIABLE warning per marker; a variable is static iff the
   * reader was inside a function, and then it carries its parent's address.
   */
  lemma {:induction false} VarOutsShape(ms: seq<Marker>, isStatic: bool, fun: MarkerDict, line: int,
                                        name: string, text: Option<string>)
    ensures var (s, a) := VarOuts(ms, isStatic, fun, line, name, text);
      && |s| + |a| == |ms|
      && (forall k :: 0 <= k < |a| ==> a[k] == Alert(line, OrphanedStaticVariable))
      && (|a| > 0 ==> isStatic)
      && (forall k :: 0 <= k < |s| ==>
            || s[k].PString?
            || (s[k].PVariable? && s[k].name == name && s[k].isStatic == isStatic
                && (s[k].parent.Some? <==> isStatic)))
    decreases |ms|
  {
    if ms != [] {
      VarOutsShape(ms[..|ms| - 1], isStatic, fun, line, name, text);
    }
  }

  /** A static variable gets the address of its module's FUNCTION marker as parent. */
  lemma StaticParent(r: Reader, m: Marker, f: Marker, name: string)
    requires r.state == InFuncGlobal && r.vars.markers == [m] && m.IsVariable()
    requires r.fun.Query(FunctionCat, m.moduleName) == Some(f)
    ensures VariableDone(r, Some(name), None) ==
      r.(symbols := r.symbols + [PVariable(Global, r.lineNumber, m.moduleName, m.offset,
                                           Prefix(r.curly.stack, Some(name)), true, Some(f.offset))],
         vars := EmptyDict, state := InFunc)
  {
    var p := Prefix(r.curly.stack, Some(name));
    VarOutsOne(m, true, r.fun, r.lineNumber, p, None);
    assert VarOuts([], true, r.fun, r.lineNumber, p, None) == ([], []);
    assert VarOut(m, true, r.fun, r.lineNumber, p, None)
        == ([PVariable(Global, r.lineNumber, m.moduleName, m.offset, p, true, Some(f.offset))], []);
    assert VarOuts([m], true, r.fun, r.lineNumber, p, None)
        == ([PVariable(Global, r.lineNumber, m.moduleName, m.offset, p, true, Some(f.offset))], []);
  }

  /** Without such a marker the variable is reported as orphaned and not emitted. */
  lemma OrphanedStatic(r: Reader, m: Marker, name: string)
    requires r.state == InFuncGlobal && r.vars.markers == [m] && m.IsVariable()
    requires r.fun.Query(FunctionCat, m.moduleName) == None
    ensures VariableDone(r, Some(name), None) ==
      r.(alerts := r.alerts + [Alert(r.lineNumber, OrphanedStaticVariable)], vars := EmptyDict, state := InFunc)
  {
    var p := Prefix(r.curly.stack, Some(name));
    VarOutsOne(m, true, r.fun, r.lineNumber, p, None);
    assert VarOuts([], true, r.fun, r.lineNumber, p, None) == ([], []);
    assert VarOut(m, true, r.fun, r.lineNumber, p, None) == ([], [Alert(r.lineNumber, OrphanedStaticVariable)]);
    assert VarOuts([m], true, r.fun, r.lineNumber, p, None) == ([], [Alert(r.lineNumber, OrphanedStaticVariable)]);
  }

  /** A function ends at a `}` that brings the level back to the one its `{` opened. */
  lemma CloseBraceEndsFunction(r: Reader, t: Token)
    requires r.state == InFunc && t.kind == Operator && t.value == "}"
    requires CurlyRead(r.curly, t).level <= r.indentStops
    ensures ReadToken(r, t) == Step(FunctionDone(r.(lineNumber := t.line, curly := CurlyRead(r.curly, t)), false, false), None)
    ensures ReadToken(r, t).after.state == Search
  {
  }

  /** finish warns iff the reader is not between symbols, and then ends reading. */
  lemma FinishWarns(r: Reader)
    ensures Finish(r).state == Done
    ensures Finish(r).alerts ==
      r.alerts + (if r.state != Search then [Alert(r.lineNumber, UnexpectedEndOfFile)] else [])
    ensures Finish(r).symbols == r.symbols
  {
  }

  /** After finish, tokens change nothing. */
  lemma {:induction false} DoneIgnoresTokens(r: Reader, ts: seq<Token>)
    requires r.state == Done
    ensures ReadAll(r, ts) == Step(r, None)
    decreases |ts|
  {
    if ts != [] {
      DoneIgnoresTokens(r, ts[1..]);
    }
  }

  lemma HandleMarkerAppends(r: Reader, m: Marker)
    ensures r.symbols <= HandleMarker(r, m).symbols
    ensures r.alerts <= HandleMarker(r, m).alerts
  {
    if r.state != WantCurly {
      var r1 := CloseIfMissedEnd(r, m);
      assert r.symbols <= r1.symbols && r.alerts <= r1.alerts;
    }
  }

  lemma VariableDoneAppends(r: Reader, name: Option<string>, text: Option<string>)
    ensures r.symbols <= VariableDone(r, name, text).symbols
    ensures r.alerts <= VariableDone(r, name, text).alerts
  {
  }

  lemma CodeTokenAppends(r: Reader, t: Token)
    ensures r.symbols <= CodeToken(r, t).after.symbols
    ensures r.alerts <= CodeToken(r, t).after.alerts
  {
    var r1 := r.(curly := CurlyRead(r.curly, t));
    var r2 := if r1.state == WantSig then r1.(state := WantCurly) else r1;
    if r2.state == InGlobal || r2.state == InFuncGlobal {
      VariableDoneAppends(r2, t.note.name, None);
      if t.kind != LineComment && t.value == ";" && r2.tokenStack != [] {
        var last := r2.tokenStack[|r2.tokenStack| - 1];
        var text := if last.kind == StringLit then Some(Unquote(last.value)) else None;
        VariableDoneAppends(r2, Some(VariableName(r2.tokenStack)), text);
      }
    }
  }

  /** Reading a token only ever appends symbols and alerts. */
  lemma ReadTokenAppends(r: Reader, t: Token)
    ensures r.symbols <= ReadToken(r, t).after.symbols
    ensures r.alerts <= ReadToken(r, t).after.alerts
  {
    if r.state != Done {
      var r0 := r.(lineNumber := t.line);
      if t.kind == LineComment && t.note.marker.Some? {
        var r1 := if !t.note.exact then Warn(r0, BadDecompMarker) else r0;
        HandleMarkerAppends(r1, t.note.marker.value);
      } else if t.kind == LineComment && NamerefState(r0.state) {
      } else if t.kind != Newline {
        CodeTokenAppends(r0, t);
      }
    }
  }

  lemma {:induction false} ReadAllAppends(r: Reader, ts: seq<Token>)
    ensures r.symbols <= ReadAll(r, ts).after.symbols
    ensures r.alerts <= ReadAll(r, ts).after.alerts
    decreases |ts|
  {
    if ts != [] {
      ReadTokenAppends(r, ts[0]);
      var s := ReadToken(r, ts[0]);
      if s.error.None? {
        ReadAllAppends(s.after, ts[1..]);
      }
    }
  }

  lemma HandleMarkerKeepsInv(r: Reader, m: Marker)
    requires Inv(r)
    ensures Inv(HandleMarker(r, m))
  {
    if r.state != WantCurly {
      var r1 := CloseIfMissedEnd(r, m);
      assert Inv(r1);
      if KnownMarker(m) && Accepts(r1.state, m) {
        var d := if m.IsRegularFunction() || m.IsExplicitByName() then r1.fun
                 else if m.IsVariable() || m.IsString() then r1.vars else r1.tbl;
        assert d.Valid();
        var (d1, dup) := d.Insert(m);
        assert d1.Valid();
      }
    }
  }

  lemma CodeTokenKeepsInv(r: Reader, t: Token)
    requires Inv(r)
    ensures Inv(CodeToken(r, t).after)
  {
    CurlyReadValid(r.curly, t);
    var r1 := r.(curly := CurlyRead(r.curly, t));
    assert Inv(r1);
  }

  /** The scope tracker stays well formed and every marker queue keeps distinct keys. */
  lemma ReadTokenKeepsInv(r: Reader, t: Token)
    requires Inv(r)
    ensures Inv(ReadToken(r, t).after)
  {
    if r.state != Done {
      var r0 := r.(lineNumber := t.line);
      if t.kind == LineComment && t.note.marker.Some? {
        var r1 := if !t.note.exact then Warn(r0, BadDecompMarker) else r0;
        HandleMarkerKeepsInv(r1, t.note.marker.value);
      } else if t.kind == LineComment && NamerefState(r0.state) {
      } else if t.kind != Newline {
        CodeTokenKeepsInv(r0, t);
      }
    }
  }

  lemma {:induction false} ReadAllKeepsInv(r: Reader, ts: seq<Token>)
    requires Inv(r)
    ensures Inv(ReadAll(r, ts).after)
    decreases |ts|
  {
    if ts != [] {
      ReadTokenKeepsInv(r, ts[0]);
      var s := ReadToken(r, ts[0]);
      if s.error.None? {
        ReadAllKeepsInv(s.after, ts[1..]);
      }
    }
  }

  // ---------------------------------------------------------------------
  // Names and whole inputs
  // ---------------------------------------------------------------------

  function Tok(kind: TokenType, line: int, value: string): Token {
    Token(kind, line, value, NoNote)
  }

  /** A `// <TYPE>: <MODULE> <ADDR>` comment, written exactly. */
  function MarkerComment(line: int, mtype: MarkerType, moduleName: string, offset: int): Token {
    Token(LineComment, line, "", Note(Some(Marker(mtype, moduleName, offset, None)), true, None, None))
  }

  /** Without a `(` there is no function name. */
  lemma {:induction false} NoParenNoName(ts: seq<Token>, i: nat)
    requires i <= |ts|
    requires forall k :: 0 <= k < i ==> ts[k].value != "("
    ensures FnScan(ts, i, false, []) == []
    decreases i
  {
    if i > 0 {
      NoParenNoName(ts, i - 1);
    }
  }

  lemma FunctionNameOfCall()
    ensures FunctionName([Tok(Identifier, 3, "void"), Tok(Identifier, 3, "interesting_function"),
                          Tok(Operator, 3, "("), Tok(Operator, 3, ")")]) == "interesting_function"
  {
    var ts := [Tok(Identifier, 3, "void"), Tok(Identifier, 3, "interesting_function"),
               Tok(Operator, 3, "("), Tok(Operator, 3, ")")];
    assert FnScan(ts, 4, false, []) == FnScan(ts, 3, false, []);
    assert FnScan(ts, 3, false, []) == FnScan(ts, 2, true, []);
    assert FnScan(ts, 2, true, []) == FnScan(ts, 1, true, [ts[1]]);
    assert FnScan(ts, 1, true, [ts[1]]) == [ts[1]];
    assert JoinValues([ts[1]]) == JoinValues([]) + ts[1].value;
  }

  /** A class-scoped global keeps its qualifier; the type before it is dropped. */
  lemma VariableNameQualified()
    ensures VariableName([Tok(Identifier, 1, "int"), Tok(Identifier, 1, "MxTest"), Tok(Operator, 1, ":"),
                          Tok(Operator, 1, ":"), Tok(Identifier, 1, "g_count"), Tok(Operator, 1, "="),
                          Tok(Const, 1, "0")]) == "MxTest::g_count"
  {
    var ts := [Tok(Identifier, 1, "int"), Tok(Identifier, 1, "MxTest"), Tok(Operator, 1, ":"),
               Tok(Operator, 1, ":"), Tok(Identifier, 1, "g_count"), Tok(Operator, 1, "="),
               Tok(Const, 1, "0")];
    assert VarScan(ts, 0, []) == VarScan(ts, 1, [ts[0]]);
    assert VarScan(ts, 1, [ts[0]]) == VarScan(ts, 2, [ts[1]]);
    assert VarScan(ts, 2, [ts[1]]) == VarScan(ts, 3, [ts[1], ts[2]]);
    assert VarScan(ts, 3, [ts[1], ts[2]]) == VarScan(ts, 4, [ts[1], ts[2], ts[3]]);
    assert VarScan(ts, 4, [ts[1], ts[2], ts[3]]) == VarScan(ts, 5, [ts[1], ts[2], ts[3], ts[4]]);
    assert VarScan(ts, 5, [ts[1], ts[2], ts[3], ts[4]]) == [ts[1], ts[2], ts[3], ts[4]];
    var sub := [ts[1], ts[2], ts[3], ts[4]];
    assert sub[..3][..2] == sub[..2] && sub[..2][..1] == sub[..1] && sub[..1][..0] == [];
    assert JoinValues(sub[..1]) == "MxTest";
    assert JoinValues(sub[..2]) == "MxTest:";
    assert JoinValues(sub[..3]) == "MxTest::";
    assert JoinValues(sub) == JoinValues(sub[..3]) + "g_count";
  }

  /** The class name is read from `class X : public Base`, not the base. */
  lemma VtableNameSkipsBase()
    ensures VtableName([Tok(Identifier, 1, "class"), Tok(Identifier, 1, "MxString"), Tok(Operator, 1, ":"),
                        Tok(Identifier, 1, "public"), Tok(Identifier, 1, "MxCore")]) == "MxString"
  {
    var ts := [Tok(Identifier, 1, "class"), Tok(Identifier, 1, "MxString"), Tok(Operator, 1, ":"),
               Tok(Identifier, 1, "public"), Tok(Identifier, 1, "MxCore")];
    assert VtScan(ts, 5, []) == VtScan(ts, 4, [ts[4]]);
    assert VtScan(ts, 4, [ts[4]]) == VtScan(ts, 3, [ts[3], ts[4]]);
    assert VtScan(ts, 3, [ts[3], ts[4]]) == VtScan(ts, 2, []);
    assert VtScan(ts, 2, []) == VtScan(ts, 1, [ts[1]]);
    assert VtScan(ts, 1, [ts[1]]) == [ts[1]];
    assert JoinValues([ts[1]]) == JoinValues([]) + ts[1].value;
  }

  /** FUNCTION then GLOBAL: the GLOBAL is incompatible and nothing is emitted. */
  lemma IncompatibleInput()
    ensures var s := ReadAll(Fresh, [MarkerComment(1, Function, "TEST", 0x1234), MarkerComment(2, Global, "TEST", 0x5000)]);
      s.error.None? && s.after.state == Search && s.after.symbols == []
      && s.after.alerts == [Alert(2, IncompatibleMarker)]
  {
    var t1 := MarkerComment(1, Function, "TEST", 0x1234);
    var t2 := MarkerComment(2, Global, "TEST", 0x5000);
    var r1 := ReadToken(Fresh, t1).after;
    assert r1.state == WantSig && r1.alerts == [];
    var s2 := ReadToken(r1, t2);
    assert s2.after.alerts == [Alert(2, IncompatibleMarker)];
    assert ReadAll(Fresh, [t1, t2]) == ReadAll(r1, [t2]);
    assert [t1, t2][1..] == [t2];
    assert ReadAll(r1, [t2]) == ReadAll(s2.after, []);
  }

  /** Between a function marker and its `{`, code tokens are stacked up for the name. */
  lemma SignatureToken(r: Reader, t: Token)
    requires r.state == WantSig || r.state == WantCurly
    requires t.kind != Newline && t.kind != LineComment && t.value != ";" && t.value != "{"
    ensures ReadToken(r, t) == Step(r.(lineNumber := t.line, curly := CurlyRead(r.curly, t), state := WantCurly,
                                       tokenStack := r.tokenStack + [t]), None)
  {
  }

  /** The `{` after a signature starts the function on its own line, named from the stacked tokens. */
  lemma OpenBraceStartsFunction(r: Reader, t: Token)
    requires r.state == WantSig || r.state == WantCurly
    requires t.kind == Operator && t.value == "{"
    ensures ReadToken(r, t) == Step(r.(lineNumber := t.line, curly := CurlyRead(r.curly, t),
                                       functionSig := FunctionName(r.tokenStack), functionStart := t.line,
                                       indentStops := r.curly.level + 1, state := InFunc, tokenStack := []), None)
  {
  }
}

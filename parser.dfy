/**
 * The decomp reader as the source keeps it: a scope tracker and a reader
 * whose fields change token by token.  Every method is proved to leave
 * the object in the state the matching function of ParserSpec gives.
 */
module Parser {
  import opened Wrappers
  import opened Tokens
  import opened ParserSpec

  /** Brace depth and the class, struct and namespace scopes that are open. */
  class CurlyManager {
    var stack: seq<(string, int)>
    var level: int
    var pending: Option<string>
    /** Set after `class`, `struct` or `namespace`: the next identifier names a scope. */
    var afterKeyword: bool

    ghost function Snap(): Curly
      reads this
    {
      Curly(stack, level, pending, afterKeyword)
    }

    ghost predicate Valid()
      reads this
    {
      Snap().Valid()
    }

    constructor()
      ensures Snap() == NewCurly && Valid()
    {
      stack := [];
      level := 0;
      pending := None;
      afterKeyword := false;
    }

    method Reset()
      modifies this
      ensures Snap() == NewCurly && Valid()
    {
      stack := [];
      level := 0;
      pending := None;
      afterKeyword := false;
    }

    method NewScope(scope: string)
      modifies this`stack
      ensures stack == old(stack) + [(scope, level)]
    {
      stack := stack + [(scope, level)];
    }

    /** Leaves one brace level (never going below zero) and closes the scopes opened at or above it. */
    method Pop()
      modifies this`level, this`stack
      ensures Snap() == CurlyPop(old(Snap()))
    {
      if level > 0 {
        level := level - 1;
      }
      ghost var newLevel := level;
      while |stack| > 0 && stack[|stack| - 1].1 >= level
        invariant level == newLevel
        invariant KeepBelow(stack, level) == KeepBelow(old(stack), level)
        decreases |stack|
      {
        stack := stack[..|stack| - 1];
      }
      assert KeepBelow(stack, level) == stack;
    }

    function GetPrefix(name: Option<string>): string
      reads this
    {
      Prefix(stack, name)
    }

    method ReadToken(t: Token)
      modifies this
      ensures Snap() == CurlyRead(old(Snap()), t)
      ensures old(Valid()) ==> Valid()
    {
      ghost var before := Snap();
      if t.kind == Operator {
        afterKeyword := false;
        if t.value == "{" {
          if pending.Some? {
            NewScope(pending.value);
            pending := None;
          }
          level := level + 1;
        } else if t.value == "}" {
          Pop();
        } else if t.value == ";" {
          pending := None;
        }
      } else if t.kind == Identifier {
        if !afterKeyword {
          if t.value == "class" || t.value == "struct" || t.value == "namespace" {
            afterKeyword := true;
          }
        } else {
          pending := Some(t.value);
        }
      }
      if before.Valid() {
        CurlyReadValid(before, t);
      }
    }
  }

  /** Reads tokens of one file and collects the annotated symbols and the alerts. */
  class DecompParser {
    var symbols: seq<Symbol>
    var alerts: seq<Alert>
    var lineNumber: int
    var state: ReaderState
    var tokenStack: seq<Token>
    const curly: CurlyManager
    var fun: MarkerDict
    var vars: MarkerDict
    var tbl: MarkerDict
    /** The brace level at the `{` that opened the current function. */
    var indentStops: int
    var functionStart: int
    var functionSig: string

    ghost function Snap(): Reader
      reads this, curly
    {
      Reader(symbols, alerts, lineNumber, state, tokenStack, curly.Snap(), fun, vars, tbl,
             indentStops, functionStart, functionSig)
    }

    ghost predicate Valid()
      reads this, curly
    {
      Inv(Snap())
    }

    constructor()
      ensures Snap() == Fresh && Valid()
      ensures fresh(curly)
    {
      symbols := [];
      alerts := [];
      lineNumber := 0;
      state := Search;
      tokenStack := [];
      curly := new CurlyManager();
      fun := EmptyDict;
      vars := EmptyDict;
      tbl := EmptyDict;
      indentStops := 0;
      functionStart := 0;
      functionSig := "";
    }

    /** Clears the results and the reading state; the token stack is kept. */
    method Reset()
      modifies this, curly
      ensures Snap() == ResetReader(old(Snap())) && Valid()
    {
      symbols := [];
      alerts := [];
      lineNumber := 0;
      state := Search;
      fun := EmptyDict;
      vars := EmptyDict;
      tbl := EmptyDict;
      indentStops := 0;
      functionStart := 0;
      functionSig := "";
      curly.Reset();
      assert curly.Snap() == NewCurly;
      assert Snap() == Fresh.(tokenStack := tokenStack);
    }

    /** The symbols of one module, or all of them, in the order they were read. */
    function IterSymbols(moduleName: Option<string>): seq<Symbol>
      reads this
    {
      OfModule(symbols, moduleName)
    }

    method Recover()
      modifies this
      ensures Snap() == ParserSpec.Recover(old(Snap()))
    {
      state := Search;
      fun := EmptyDict;
      vars := EmptyDict;
      tbl := EmptyDict;
    }

    method SyntaxWarning(code: ParserError)
      modifies this`alerts
      ensures Snap() == Warn(old(Snap()), code)
    {
      alerts := alerts + [Alert(lineNumber, code)];
    }

    method SyntaxError(code: ParserError)
      modifies this
      ensures Snap() == ParserSpec.SyntaxError(old(Snap()), code)
    {
      SyntaxWarning(code);
      Recover();
    }

    method FunctionMarker(m: Marker)
      modifies this
      ensures Snap() == ParserSpec.FunctionMarker(old(Snap()), m)
    {
      var (d, dup) := fun.Insert(m);
      fun := d;
      if dup {
        SyntaxWarning(DuplicateModule);
      }
      state := WantSig;
    }

    method NamerefMarker(m: Marker)
      modifies this
      ensures Snap() == ParserSpec.NamerefMarker(old(Snap()), m)
    {
      var (d, dup) := fun.Insert(m);
      fun := d;
      if dup {
        SyntaxWarning(DuplicateModule);
      }
      if m.IsTemplate() {
        state := InTemplate;
      } else if m.IsSynthetic() {
        state := InSynthetic;
      } else {
        state := InLibrary;
      }
    }

    method FunctionDone(byName: bool, unexpected: bool)
      modifies this
      ensures Snap() == ParserSpec.FunctionDone(old(Snap()), byName, unexpected)
    {
      var endLine := lineNumber;
      if unexpected {
        endLine := endLine - 1;
      }
      EmitFunctions(byName, endLine);
      fun := EmptyDict;
      indentStops := 0;
      state := Search;
    }

    /** The loop of FunctionDone: one function per queued marker. */
    method EmitFunctions(byName: bool, endLine: int)
      modifies this`symbols
      ensures symbols == old(symbols) + FunctionsFor(fun.markers, functionStart, functionSig, byName, endLine)
    {
      var ms := fun.markers;
      var acc: seq<Symbol> := [];
      var i := 0;
      while i < |ms|
        invariant 0 <= i <= |ms|
        invariant acc == FunctionsFor(ms[..i], functionStart, functionSig, byName, endLine)
        invariant symbols == old(symbols)
      {
        var m := ms[i];
        acc := acc + [PFunction(m.mtype, functionStart, m.moduleName, m.offset, functionSig, byName, endLine)];
        assert ms[..i + 1][..i] == ms[..i];
        i := i + 1;
      }
      assert ms[..i] == ms;
      symbols := symbols + acc;
    }

    method VtableMarker(m: Marker)
      modifies this
      ensures Snap() == ParserSpec.VtableMarker(old(Snap()), m)
    {
      var (d, dup) := tbl.Insert(m);
      tbl := d;
      if dup {
        SyntaxWarning(DuplicateModule);
      }
      state := InVtable;
    }

    method VtableDone(className: string)
      modifies this
      ensures Snap() == ParserSpec.VtableDone(old(Snap()), className)
    {
      EmitVtables(className);
      tbl := EmptyDict;
      state := Search;
    }

    /** The loop of VtableDone: one vtable per queued marker. */
    method EmitVtables(className: string)
      modifies this`symbols
      ensures symbols == old(symbols) + VtablesFor(tbl.markers, lineNumber, Prefix(curly.stack, Some(className)))
    {
      var ms := tbl.markers;
      var name := curly.GetPrefix(Some(className));
      var acc: seq<Symbol> := [];
      var i := 0;
      while i < |ms|
        invariant 0 <= i <= |ms|
        invariant acc == VtablesFor(ms[..i], lineNumber, name)
        invariant symbols == old(symbols)
      {
        var m := ms[i];
        acc := acc + [PVtable(m.mtype, lineNumber, m.moduleName, m.offset, name, m.extra)];
        assert ms[..i + 1][..i] == ms[..i];
        i := i + 1;
      }
      assert ms[..i] == ms;
      symbols := symbols + acc;
    }

    method VariableMarker(m: Marker)
      modifies this
      ensures Snap() == ParserSpec.VariableMarker(old(Snap()), m)
    {
      var (d, dup) := vars.Insert(m);
      vars := d;
      if dup {
        SyntaxWarning(DuplicateModule);
      }
      if state == InFunc || state == InFuncGlobal {
        state := InFuncGlobal;
      } else {
        state := InGlobal;
      }
    }

    method VariableDone(name: Option<string>, text: Option<string>)
      modifies this
      ensures Snap() == ParserSpec.VariableDone(old(Snap()), name, text)
    {
      if name.None? && text.None? {
        SyntaxError(NoSuitableName);
        return;
      }
      EmitVariables(name, text);
      vars := EmptyDict;
      if state == InFuncGlobal {
        state := InFunc;
      } else {
        state := Search;
      }
    }

    /** The loop of VariableDone: a symbol or an orphan warning per queued marker. */
    method EmitVariables(name: Option<string>, text: Option<string>)
      modifies this`symbols, this`alerts
      ensures symbols == old(symbols) + VarOuts(vars.markers, state == InFuncGlobal, fun, lineNumber,
                                                Prefix(curly.stack, name), text).0
      ensures alerts == old(alerts) + VarOuts(vars.markers, state == InFuncGlobal, fun, lineNumber,
                                              Prefix(curly.stack, name), text).1
    {
      var ms := vars.markers;
      var prefix := curly.GetPrefix(name);
      var isStatic := state == InFuncGlobal;
      var line := lineNumber;
      var f := fun;
      var syms: seq<Symbol> := [];
      var als: seq<Alert> := [];
      var i := 0;
      while i < |ms|
        invariant 0 <= i <= |ms|
        invariant syms == VarOuts(ms[..i], isStatic, f, line, prefix, text).0
        invariant als == VarOuts(ms[..i], isStatic, f, line, prefix, text).1
        invariant symbols == old(symbols) && alerts == old(alerts)
      {
        VarOutsStep(ms, i, isStatic, f, line, prefix, text);
        var s1, a1 := EmitVariable(ms[i], isStatic, f, line, prefix, text);
        syms := syms + s1;
        als := als + a1;
        i := i + 1;
      }
      assert ms[..i] == ms;
      symbols := symbols + syms;
      alerts := alerts + als;
    }

    /** One iteration: a string, a variable, or (static without a parent) a warning. */
    static method EmitVariable(m: Marker, isStatic: bool, fun: MarkerDict, line: int, prefix: string,
                               text: Option<string>) returns (syms: seq<Symbol>, als: seq<Alert>)
      ensures (syms, als) == VarOut(m, isStatic, fun, line, prefix, text)
    {
      syms, als := [], [];
      if m.IsString() {
        syms := [PString(m.mtype, line, m.moduleName, m.offset, text)];
      } else {
        var parent: Option<int> := None;
        if isStatic {
          var f := fun.Query(FunctionCat, m.moduleName);
          if f.None? {
            als := [Alert(line, OrphanedStaticVariable)];
            return;
          }
          parent := Some(f.value.offset);
        }
        syms := [PVariable(m.mtype, line, m.moduleName, m.offset, prefix, isStatic, parent)];
      }
    }

    method HandleMarker(m: Marker)
      modifies this
      ensures Snap() == ParserSpec.HandleMarker(old(Snap()), m)
    {
      if state == WantCurly {
        SyntaxError(UnexpectedMarker);
        return;
      }
      if state == InFunc && !m.AllowedInFunc() {
        SyntaxWarning(MissedEndOfFunction);
        FunctionDone(false, true);
      }
      DispatchMarker(m);
    }

    /** Hands the marker to the handler of its kind when the state accepts it. */
    method DispatchMarker(m: Marker)
      modifies this
      ensures Snap() == ParserSpec.DispatchMarker(old(Snap()), m)
    {
      if m.IsRegularFunction() {
        if state == Search || state == WantSig {
          FunctionMarker(m);
        } else {
          SyntaxError(IncompatibleMarker);
        }
      } else if m.IsTemplate() {
        if state == Search || state == InTemplate {
          NamerefMarker(m);
        } else {
          SyntaxError(IncompatibleMarker);
        }
      } else if m.IsSynthetic() {
        if state == Search || state == InSynthetic {
          NamerefMarker(m);
        } else {
          SyntaxError(IncompatibleMarker);
        }
      } else if m.IsLibrary() {
        if state == Search || state == InLibrary {
          NamerefMarker(m);
        } else {
          SyntaxError(IncompatibleMarker);
        }
      } else if m.IsString() || m.IsVariable() {
        if state == Search || state == InGlobal || state == InFunc || state == InFuncGlobal {
          VariableMarker(m);
        } else {
          SyntaxError(IncompatibleMarker);
        }
      } else if m.IsVtable() {
        if state == Search || state == InVtable {
          VtableMarker(m);
        } else {
          SyntaxError(IncompatibleMarker);
        }
      } else {
        SyntaxWarning(BogusMarker);
      }
    }

    /** Scans the token stack from the end back to the name before `(`. */
    method GetFunctionName() returns (name: string)
      ensures name == FunctionName(tokenStack)
    {
      var sub: seq<Token> := [];
      var recording := false;
      var i := |tokenStack|;
      while i > 0
        invariant 0 <= i <= |tokenStack|
        invariant FnScan(tokenStack, i, recording, sub) == FnScan(tokenStack, |tokenStack|, false, [])
      {
        var t := tokenStack[i - 1];
        if recording {
          if |sub| > 0 {
            if sub[|sub| - 1].kind == t.kind {
              break;
            }
            sub := [t] + sub;
          } else if t.kind == Identifier {
            sub := [t];
          }
        } else if t.value == "(" {
          recording := true;
        }
        i := i - 1;
      }
      name := JoinValues(sub);
    }

    /** Scans the token stack left to right for the last identifier before `=`, `;` or `[`. */
    method GetVariableName() returns (name: string)
      ensures name == VariableName(tokenStack)
    {
      var sub: seq<Token> := [];
      var i := 0;
      while i < |tokenStack|
        invariant 0 <= i <= |tokenStack|
        invariant VarScan(tokenStack, i, sub) == VarScan(tokenStack, 0, [])
      {
        var t := tokenStack[i];
        if |sub| > 0 {
          if sub[|sub| - 1].kind == Identifier && t.kind == Identifier {
            sub := [t];
          } else if t.value == "*" || t.value == "&" {
            sub := [];
          } else if t.value == "=" || t.value == ";" || t.value == "[" {
            break;
          } else {
            sub := sub + [t];
          }
        } else if t.kind == Identifier {
          sub := [t];
        }
        i := i + 1;
      }
      name := JoinValues(sub);
    }

    /** Scans the token stack from the end back to `class` or `struct`, skipping base classes. */
    method GetVtableName() returns (name: string)
      ensures name == VtableName(tokenStack)
    {
      var sub: seq<Token> := [];
      var i := |tokenStack|;
      while i > 0
        invariant 0 <= i <= |tokenStack|
        invariant VtScan(tokenStack, i, sub) == VtScan(tokenStack, |tokenStack|, [])
      {
        var t := tokenStack[i - 1];
        if t.value == ":" {
          sub := [];
        }
        if |sub| > 0 {
          if t.value == "class" || t.value == "struct" {
            break;
          }
          sub := [t] + sub;
        } else if t.kind == Identifier {
          sub := [t];
        }
        i := i - 1;
      }
      name := JoinValues(sub);
    }

    /** Reads one token; err is the exception it raises (an empty stack at `;` of a global). */
    method ReadToken(t: Token) returns (err: Option<Error>)
      modifies this, curly
      ensures Snap() == ParserSpec.ReadToken(old(Snap()), t).after
      ensures err == ParserSpec.ReadToken(old(Snap()), t).error
      ensures old(Valid()) ==> Valid()
    {
      if Inv(Snap()) {
        ReadTokenKeepsInv(Snap(), t);
      }
      err := TokenStep(t);
    }

    /** The body of `read_token`: newlines, comments with a marker or a name, then code. */
    method TokenStep(t: Token) returns (err: Option<Error>)
      modifies this, curly
      ensures Snap() == ParserSpec.ReadToken(old(Snap()), t).after
      ensures err == ParserSpec.ReadToken(old(Snap()), t).error
    {
      err := None;
      if state == Done {
        return;
      }
      lineNumber := t.line;
      if t.kind == Newline {
        return;
      }
      if t.kind == LineComment && t.note.marker.Some? {
        MarkerComment(t);
        return;
      }
      if t.kind == LineComment && NamerefState(state) {
        NamerefComment(t);
        return;
      }
      err := CodeToken(t);
    }

    /** A comment holding a marker: a warning when it is not written exactly, then the marker. */
    method MarkerComment(t: Token)
      requires t.note.marker.Some?
      modifies this, curly
      ensures Snap() == ParserSpec.HandleMarker(
        if !t.note.exact then ParserSpec.Warn(old(Snap()), BadDecompMarker) else old(Snap()), t.note.marker.value)
    {
      if !t.note.exact {
        SyntaxWarning(BadDecompMarker);
      }
      HandleMarker(t.note.marker.value);
    }

    /** A comment where a function's name is expected: the name is taken as the signature, and the function is done. */
    method NamerefComment(t: Token)
      modifies this, curly
      ensures Snap() == match t.note.name
        case None => ParserSpec.SyntaxError(old(Snap()), BadNameref)
        case Some(n) => ParserSpec.FunctionDone(old(Snap()).(functionSig := n, functionStart := old(Snap()).lineNumber), true, false)
    {
      if t.note.name.None? {
        SyntaxError(BadNameref);
      } else {
        functionSig := t.note.name.value;
        functionStart := lineNumber;
        FunctionDone(true, false);
      }
    }

    method CodeToken(t: Token) returns (err: Option<Error>)
      modifies this, curly
      ensures Snap() == ParserSpec.CodeToken(old(Snap()), t).after
      ensures err == ParserSpec.CodeToken(old(Snap()), t).error
    {
      err := None;
      curly.ReadToken(t);
      if state == WantSig {
        state := WantCurly;
      }
      if state == WantCurly {
        if t.value == ";" {
          SyntaxError(NoImplementation);
        } else if t.value == "{" {
          functionSig := GetFunctionName();
          functionStart := t.line;
          indentStops := curly.level;
          state := InFunc;
          tokenStack := [];
        } else {
          tokenStack := tokenStack + [t];
        }
      } else if state == InFunc {
        if t.value == "}" && curly.level <= indentStops {
          FunctionDone(false, false);
        }
      } else if state == InGlobal || state == InFuncGlobal {
        err := GlobalToken(t);
      } else if state == InVtable {
        if t.kind == LineComment && t.note.className.Some? {
          VtableDone(t.note.className.value);
          return;
        }
        if t.value == ";" {
          SyntaxError(NoImplementation);
        } else if t.value == "{" {
          var className := GetVtableName();
          VtableDone(className);
          tokenStack := [];
        } else {
          tokenStack := tokenStack + [t];
        }
      }
    }

    method GlobalToken(t: Token) returns (err: Option<Error>)
      modifies this
      ensures Snap() == ParserSpec.GlobalToken(old(Snap()), t).after
      ensures err == ParserSpec.GlobalToken(old(Snap()), t).error
    {
      err := None;
      if t.kind == LineComment {
        VariableDone(t.note.name, None);
        return;
      }
      if t.value == ";" {
        if |tokenStack| == 0 {
          err := Some(IndexError);
          return;
        }
        var text: Option<string> := None;
        var last := tokenStack[|tokenStack| - 1];
        if last.kind == StringLit {
          text := Some(Unquote(last.value));
        }
        var name := GetVariableName();
        var globalsQueued := AnyVariableMarker(vars.markers);
        var returnStatement := AnyReturn(tokenStack);
        if globalsQueued && returnStatement {
          SyntaxError(GlobalNotVariable);
          return;
        }
        VariableDone(Some(name), text);
        tokenStack := [];
      } else if t.kind != BlockComment {
        tokenStack := tokenStack + [t];
      }
    }

    /** Reads tokens in order until one raises. */
    method ReadTokens(ts: seq<Token>) returns (err: Option<Error>)
      modifies this, curly
      ensures Snap() == ReadAll(old(Snap()), ts).after
      ensures err == ReadAll(old(Snap()), ts).error
      ensures old(Valid()) ==> Valid()
    {
      err := None;
      var i := 0;
      while i < |ts|
        invariant 0 <= i <= |ts|
        invariant err.None?
        invariant ReadAll(old(Snap()), ts) == ReadAll(Snap(), ts[i..])
        invariant old(Valid()) ==> Valid()
      {
        ghost var prev := Snap();
        assert ts[i..][0] == ts[i] && ts[i..][1..] == ts[i + 1..];
        err := ReadToken(ts[i]);
        if err.Some? {
          assert ReadAll(prev, ts[i..]) == ParserSpec.ReadToken(prev, ts[i]);
          return;
        }
        i := i + 1;
      }
    }

    method Finish()
      modifies this
      ensures Snap() == ParserSpec.Finish(old(Snap()))
    {
      if state != Search {
        SyntaxWarning(UnexpectedEndOfFile);
      }
      state := Done;
    }
  }
}

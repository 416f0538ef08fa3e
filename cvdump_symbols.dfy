/**
 * The reader of the SYMBOLS section of cvdump's output: function records
 * (S_GPROC32/S_LPROC32) collect the stack and register symbols and the
 * static variables that follow them, up to the S_END that closes the
 * function rather than an inner S_BLOCK32 scope.
 */
module CvdumpSymbols {
  import opened Wrappers
  import opened Order
  import opened EntityName

  // ---------------------------------------------------------------------
  // Input: leaves with their pattern matches
  // ---------------------------------------------------------------------

  /** The fields of `[SSSS:OOOOOOOO], Cb: SIZE, Type: T, NAME` in a function leaf. */
  datatype ProcFields = ProcFields(section: string, offset: string, size: string, funcType: string, name: string)

  /** The fields of `: LOCATION, Type: T, NAME` in a stack or register leaf. */
  datatype RegFields = RegFields(location: string, dataType: string, name: string)

  /** The fields of `[SSSS:OOOOOOOO], Type: T, NAME` in a static variable leaf. */
  datatype DataFields = DataFields(section: string, offset: string, dataType: string, name: string)

  /**
   * One leaf of the section: its text, the S_ type its header names (None
   * when the header is malformed) and what each field pattern finds in it.
   */
  datatype Leaf = Leaf(
    text: string,
    symbolType: Option<string>,
    proc: Option<ProcFields>,
    reg: Option<RegFields>,
    data: Option<DataFields>)

  // ---------------------------------------------------------------------
  // Output records
  // ---------------------------------------------------------------------

  /** A stack (S_BPREL32) or register (S_REGISTER) symbol of a function. */
  datatype StackOrRegisterSymbol = StackOrRegisterSymbol(symbolType: string, location: string, dataType: string, name: string)

  /** A static variable (S_LDATA32) of a function. */
  datatype LdataEntry = LdataEntry(section: int, offset: int, dataType: string, name: string)

  /** A function record and what was read inside it. */
  datatype SymbolsEntry = SymbolsEntry(
    symbolType: string,
    section: int,
    offset: int,
    size: int,
    funcType: string,
    name: string,
    stackSymbols: seq<StackOrRegisterSymbol>,
    staticVariables: seq<LdataEntry>,
    framePointerPresent: bool,
    addr: Option<int>)

  /** The fields of a function record that later leaves never change. */
  function Header(e: SymbolsEntry): (string, int, int, int, string, string) {
    (e.symbolType, e.section, e.offset, e.size, e.funcType, e.name)
  }

  /**
   * The reader's state. The current function is the record last appended
   * to `symbols` (the same object in the source), so it is kept as that
   * record's index.
   */
  datatype SymState = SymState(symbols: seq<SymbolsEntry>, current: Option<nat>, blockLevel: int)

  const Empty := SymState([], None, 0)

  predicate Inv(s: SymState) {
    && s.blockLevel >= 0
    && (s.current.Some? ==> s.current.value == |s.symbols| - 1)
  }

  datatype SymStep = SymStep(after: SymState, error: Option<Error>)

  const FramePtrFlag := "Flags: Frame Ptr Present"

  // ---------------------------------------------------------------------
  // One leaf
  // ---------------------------------------------------------------------

  /** A stack or register leaf: appended to the current function, with its location in lower case. */
  function RegisterStep(s: SymState, leaf: Leaf, symbolType: string): (r: SymState)
    requires Inv(s)
    ensures Inv(r)
    ensures |r.symbols| == |s.symbols| && r.current == s.current && r.blockLevel == s.blockLevel
    ensures forall i :: 0 <= i < |s.symbols| ==> Header(r.symbols[i]) == Header(s.symbols[i])
  {
    match (s.current, leaf.reg)
    case (Some(i), Some(m)) =>
      var e := s.symbols[i];
      var sym := StackOrRegisterSymbol(symbolType, Lower(m.location), m.dataType, m.name);
      s.(symbols := s.symbols[i := e.(stackSymbols := e.stackSymbols + [sym])])
    case _ => s
  }

  /** A function leaf: a new record, which becomes the current function. */
  function ProcStep(s: SymState, leaf: Leaf, symbolType: string): (r: SymStep)
    requires Inv(s)
    ensures r.error.None? ==> Inv(r.after)
    ensures r.error.None? ==> r.after.blockLevel == s.blockLevel
    ensures r.error.None? && leaf.proc.None? ==> r.after == s
    ensures r.error.Some? ==> leaf.proc.Some? && r.after == s
  {
    match leaf.proc
    case None => SymStep(s, None)
    case Some(m) =>
      match (ParseHex(m.section), ParseHex(m.offset), ParseHex(m.size))
      case (Some(section), Some(offset), Some(size)) =>
        var e := SymbolsEntry(symbolType, section, offset, size, m.funcType, m.name, [], [],
                              Contains(leaf.text, FramePtrFlag), None);
        SymStep(s.(symbols := s.symbols + [e], current := Some(|s.symbols|)), None)
      case _ => SymStep(s, Some(ValueError))
  }

  /** A static variable leaf: appended to the current function; outside one it is dropped. */
  function DataStep(s: SymState, leaf: Leaf): (r: SymStep)
    requires Inv(s)
    ensures r.error.None? ==> Inv(r.after)
    ensures |r.after.symbols| == |s.symbols| && r.after.current == s.current && r.after.blockLevel == s.blockLevel
    ensures forall i :: 0 <= i < |s.symbols| ==> Header(r.after.symbols[i]) == Header(s.symbols[i])
  {
    match leaf.data
    case None => SymStep(s, None)
    case Some(m) =>
      match (ParseHex(m.section), ParseHex(m.offset))
      case (Some(section), Some(offset)) =>
        var v := LdataEntry(section, offset, m.dataType, m.name);
        if s.current.None? then SymStep(s, None)
        else
          var e := s.symbols[s.current.value];
          SymStep(s.(symbols := s.symbols[s.current.value := e.(staticVariables := e.staticVariables + [v])]), None)
      case _ => SymStep(s, Some(ValueError))
  }

  /** S_END: closes an inner block if one is open, otherwise the function. */
  function EndStep(s: SymState): SymState {
    if s.blockLevel > 0 then s.(blockLevel := if s.blockLevel - 1 > 0 then s.blockLevel - 1 else 0)
    else s.(current := None)
  }

  /** Skipped leaves: empty ones and module headers. */
  predicate Skipped(leaf: Leaf) {
    leaf.text == [] || "**" <= leaf.text
  }

  /** One leaf of the section. */
  function LeafStep(s: SymState, leaf: Leaf): (r: SymStep)
    requires Inv(s)
    ensures r.error.None? ==> Inv(r.after)
  {
    if Skipped(leaf) then SymStep(s, None)
    else
      match leaf.symbolType
      case None => SymStep(s, None)
      case Some(t) =>
        if t == "S_GPROC32" || t == "S_LPROC32" then ProcStep(s, leaf, t)
        else if t == "S_BPREL32" || t == "S_REGISTER" then SymStep(RegisterStep(s, leaf, t), None)
        else if t == "S_LDATA32" then DataStep(s, leaf)
        else if t == "S_BLOCK32" then SymStep(s.(blockLevel := s.blockLevel + 1), None)
        else if t == "S_END" then SymStep(EndStep(s), None)
        else SymStep(s, None)
  }

  /** All leaves in order, stopping at the first exception. */
  function ReadLeaves(s: SymState, leaves: seq<Leaf>): (r: SymStep)
    requires Inv(s)
    ensures r.error.None? ==> Inv(r.after)
    decreases |leaves|
  {
    if leaves == [] then SymStep(s, None)
    else
      var r := LeafStep(s, leaves[0]);
      if r.error.Some? then r else ReadLeaves(r.after, leaves[1..])
  }

  // ---------------------------------------------------------------------
  // The parser object
  // ---------------------------------------------------------------------

  class CvdumpSymbolsParser {
    var symbols: seq<SymbolsEntry>
    var currentFunction: Option<nat>
    var blockLevel: int

    function Snap(): SymState
      reads this
    {
      SymState(symbols, currentFunction, blockLevel)
    }

    ghost predicate Valid()
      reads this
    {
      Inv(Snap())
    }

    constructor()
      ensures Snap() == Empty && Valid()
    {
      symbols := [];
      currentFunction := None;
      blockLevel := 0;
    }

    method ReadRegister(leaf: Leaf, symbolType: string)
      requires Valid()
      modifies this
      ensures Valid()
      ensures Snap() == RegisterStep(old(Snap()), leaf, symbolType)
    {
      if currentFunction.None? {
        return;
      }
      if leaf.reg.None? {
        return;
      }
      var m := leaf.reg.value;
      var i := currentFunction.value;
      var e := symbols[i];
      var sym := StackOrRegisterSymbol(symbolType, Lower(m.location), m.dataType, m.name);
      symbols := symbols[i := e.(stackSymbols := e.stackSymbols + [sym])];
    }

    method ReadProc(leaf: Leaf, symbolType: string) returns (err: Option<Error>)
      requires Valid()
      modifies this
      ensures old(ProcStep(Snap(), leaf, symbolType)) == SymStep(if err.None? then Snap() else old(Snap()), err)
      ensures err.None? ==> Valid()
    {
      err := None;
      if leaf.proc.None? {
        return;
      }
      var m := leaf.proc.value;
      var section := ParseHex(m.section);
      var offset := ParseHex(m.offset);
      var size := ParseHex(m.size);
      if section.None? || offset.None? || size.None? {
        return Some(ValueError);
      }
      var e := SymbolsEntry(symbolType, section.value, offset.value, size.value, m.funcType, m.name,
                            [], [], false, None);
      if Contains(leaf.text, FramePtrFlag) {
        e := e.(framePointerPresent := true);
      }
      currentFunction := Some(|symbols|);
      symbols := symbols + [e];
    }

    method ReadData(leaf: Leaf) returns (err: Option<Error>)
      requires Valid()
      modifies this
      ensures old(DataStep(Snap(), leaf)) == SymStep(if err.None? then Snap() else old(Snap()), err)
      ensures err.None? ==> Valid()
    {
      err := None;
      if leaf.data.None? {
        return;
      }
      var m := leaf.data.value;
      var section := ParseHex(m.section);
      var offset := ParseHex(m.offset);
      if section.None? || offset.None? {
        return Some(ValueError);
      }
      var v := LdataEntry(section.value, offset.value, m.dataType, m.name);
      if currentFunction.Some? {
        var i := currentFunction.value;
        var e := symbols[i];
        symbols := symbols[i := e.(staticVariables := e.staticVariables + [v])];
      }
    }

    /** Reads the leaves in order; an exception stops the reading where it was raised. */
    method ReadAll(leaves: seq<Leaf>) returns (err: Option<Error>)
      requires Valid()
      modifies this
      ensures err == old(ReadLeaves(Snap(), leaves)).error
      ensures err.None? ==> Valid() && Snap() == old(ReadLeaves(Snap(), leaves)).after
    {
      err := None;
      var k := 0;
      while k < |leaves|
        invariant 0 <= k <= |leaves|
        invariant err.None? && Valid()
        invariant old(ReadLeaves(Snap(), leaves)) == ReadLeaves(Snap(), leaves[k..])
      {
        var leaf := leaves[k];
        assert leaves[k..][0] == leaf && leaves[k..][1..] == leaves[k + 1..];
        ghost var pre := Snap();
        if !Skipped(leaf) && leaf.symbolType.Some? {
          var t := leaf.symbolType.value;
          if t == "S_GPROC32" || t == "S_LPROC32" {
            err := ReadProc(leaf, t);
          } else if t == "S_BPREL32" || t == "S_REGISTER" {
            ReadRegister(leaf, t);
          } else if t == "S_LDATA32" {
            err := ReadData(leaf);
          } else if t == "S_BLOCK32" {
            blockLevel := blockLevel + 1;
          } else if t == "S_END" {
            if blockLevel > 0 {
              blockLevel := if blockLevel - 1 > 0 then blockLevel - 1 else 0;
            } else {
              currentFunction := None;
            }
          }
          assert LeafStep(pre, leaf) == SymStep(if err.None? then Snap() else pre, err);
          if err.Some? {
            return;
          }
        }
        k := k + 1;
      }
      assert leaves[k..] == [];
    }
  }

  // ---------------------------------------------------------------------
  // Properties
  // ---------------------------------------------------------------------

  /** Reading a concatenation reads the first part and then the second. */
  lemma {:induction false} ReadLeavesAppend(s: SymState, a: seq<Leaf>, b: seq<Leaf>)
    requires Inv(s) && ReadLeaves(s, a).error.None?
    ensures ReadLeaves(s, a + b) == ReadLeaves(ReadLeaves(s, a).after, b)
    decreases |a|
  {
    if a == [] {
      assert a + b == b;
    } else {
      assert (a + b)[0] == a[0] && (a + b)[1..] == a[1..] + b;
      ReadLeavesAppend(LeafStep(s, a[0]).after, a[1..], b);
    }
  }

  /**
   * Records are only ever appended: once read, a function keeps its
   * position and its header, whatever follows.
   */
  lemma {:induction false} ReadLeavesKeepsRecords(s: SymState, leaves: seq<Leaf>)
    requires Inv(s)
    ensures var r := ReadLeaves(s, leaves).after;
      && |r.symbols| >= |s.symbols|
      && forall i :: 0 <= i < |s.symbols| ==> Header(r.symbols[i]) == Header(s.symbols[i])
    decreases |leaves|
  {
    if leaves != [] {
      var r := LeafStep(s, leaves[0]);
      if r.error.None? {
        ReadLeavesKeepsRecords(r.after, leaves[1..]);
      }
    }
  }

  /** A function leaf that parses starts a new current record carrying its fields. */
  lemma ProcStarts(s: SymState, leaf: Leaf, m: ProcFields, section: nat, offset: nat, size: nat)
    requires Inv(s) && !Skipped(leaf) && leaf.symbolType == Some("S_GPROC32") && leaf.proc == Some(m)
    requires ParseHex(m.section) == Some(section) && ParseHex(m.offset) == Some(offset) && ParseHex(m.size) == Some(size)
    ensures var r := LeafStep(s, leaf);
      && r.error.None?
      && r.after.symbols == s.symbols + [SymbolsEntry("S_GPROC32", section, offset, size, m.funcType, m.name, [], [],
                                                      Contains(leaf.text, FramePtrFlag), None)]
      && r.after.current == Some(|s.symbols|)
  {
  }

  /** A stack or register symbol read inside a function lands in it, with its location lowered. */
  lemma RegisterInsideFunction(s: SymState, leaf: Leaf, m: RegFields)
    requires Inv(s) && s.current.Some? && !Skipped(leaf) && leaf.symbolType == Some("S_BPREL32") && leaf.reg == Some(m)
    ensures var r := LeafStep(s, leaf).after;
      && r.symbols[..|s.symbols| - 1] == s.symbols[..|s.symbols| - 1]
      && r.symbols[|s.symbols| - 1].stackSymbols
         == s.symbols[|s.symbols| - 1].stackSymbols + [StackOrRegisterSymbol("S_BPREL32", Lower(m.location), m.dataType, m.name)]
  {
  }

  /** Outside a function, stack and register symbols are ignored. */
  lemma RegisterOutsideFunction(s: SymState, leaf: Leaf)
    requires Inv(s) && s.current.None? && leaf.symbolType.Some?
    requires leaf.symbolType.value == "S_BPREL32" || leaf.symbolType.value == "S_REGISTER"
    ensures LeafStep(s, leaf) == SymStep(s, None)
  {
  }

  /** A static variable inside a function is appended to it. */
  lemma DataInsideFunction(s: SymState, leaf: Leaf, m: DataFields, section: nat, offset: nat)
    requires Inv(s) && s.current.Some? && !Skipped(leaf) && leaf.symbolType == Some("S_LDATA32") && leaf.data == Some(m)
    requires ParseHex(m.section) == Some(section) && ParseHex(m.offset) == Some(offset)
    ensures var r := LeafStep(s, leaf).after;
      && r.symbols[..|s.symbols| - 1] == s.symbols[..|s.symbols| - 1]
      && r.symbols[|s.symbols| - 1].staticVariables
         == s.symbols[|s.symbols| - 1].staticVariables + [LdataEntry(section, offset, m.dataType, m.name)]
  {
  }

  /** Outside a function a static variable is dropped: nothing changes. */
  lemma DataOutsideFunction(s: SymState, leaf: Leaf)
    requires Inv(s) && s.current.None? && leaf.symbolType == Some("S_LDATA32")
    requires LeafStep(s, leaf).error.None?
    ensures LeafStep(s, leaf).after == s
  {
  }

  /**
   * S_END closes an inner block before the function: after S_BLOCK32
   * and S_END the function is still open at the same depth; an S_END at
   * depth zero closes it.
   */
  lemma BlockEndKeepsFunction(s: SymState, open: Leaf, end: Leaf)
    requires Inv(s)
    requires !Skipped(open) && open.symbolType == Some("S_BLOCK32")
    requires !Skipped(end) && end.symbolType == Some("S_END")
    ensures var r := ReadLeaves(s, [open, end]);
      r.error.None? && r.after == s
  {
    var s1 := LeafStep(s, open).after;
    assert s1 == s.(blockLevel := s.blockLevel + 1);
    assert LeafStep(s1, end) == SymStep(s, None);
    assert [open, end][1..] == [end] && [end][1..] == [];
    assert ReadLeaves(s1, [end]) == SymStep(s, None);
  }

  lemma EndAtTopClosesFunction(s: SymState, end: Leaf)
    requires Inv(s) && s.blockLevel == 0
    requires !Skipped(end) && end.symbolType == Some("S_END")
    ensures LeafStep(s, end) == SymStep(s.(current := None), None)
  {
  }

  /**
   * Ordinary leaves inside a block (stack and register symbols) keep the
   * function open: the block's S_END does not end the function.
   */
  lemma {:induction false} RegistersKeepCurrent(s: SymState, regs: seq<Leaf>)
    requires Inv(s)
    requires forall i :: 0 <= i < |regs| ==> regs[i].symbolType == Some("S_BPREL32")
    ensures ReadLeaves(s, regs).error.None?
    ensures ReadLeaves(s, regs).after.current == s.current
    ensures ReadLeaves(s, regs).after.blockLevel == s.blockLevel
    ensures |ReadLeaves(s, regs).after.symbols| == |s.symbols|
    decreases |regs|
  {
    if regs != [] {
      var r := LeafStep(s, regs[0]);
      assert r.error.None? && r.after.current == s.current && r.after.blockLevel == s.blockLevel;
      assert |r.after.symbols| == |s.symbols|;
      RegistersKeepCurrent(r.after, regs[1..]);
    }
  }

  lemma NestedBlockKeepsFunction(s: SymState, open: Leaf, regs: seq<Leaf>, end: Leaf)
    requires Inv(s) && s.current.Some?
    requires !Skipped(open) && open.symbolType == Some("S_BLOCK32")
    requires !Skipped(end) && end.symbolType == Some("S_END")
    requires forall i :: 0 <= i < |regs| ==> regs[i].symbolType == Some("S_BPREL32")
    ensures var r := ReadLeaves(s, [open] + regs + [end]);
      && r.error.None?
      && r.after.current == s.current
      && r.after.blockLevel == s.blockLevel
      && |r.after.symbols| == |s.symbols|
  {
    var s1 := s.(blockLevel := s.blockLevel + 1);
    assert ReadLeaves(s, [open]) == SymStep(s1, None) by {
      assert [open][1..] == [];
    }
    RegistersKeepCurrent(s1, regs);
    ReadLeavesAppend(s, [open], regs);
    var s2 := ReadLeaves(s1, regs).after;
    assert ReadLeaves(s2, [end]) == SymStep(EndStep(s2), None) by {
      assert [end][1..] == [];
    }
    ReadLeavesAppend(s, [open] + regs, [end]);
  }
}

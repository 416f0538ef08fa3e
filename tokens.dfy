/**
 * Tokens of annotated C++ source as the decomp reader and the
 * preprocessor consume them, and the decomp markers a `//` comment can
 * carry.
 */
module Tokens {
  import opened Wrappers

  /** The tokenizer's own kinds, plus the kinds the readers test for. */
  datatype TokenType =
    | Comment | Char | StringLit | Identifier | Const | Operator | Stuff
    | Newline | LineComment | BlockComment | Preprocessor

  /** The kinds of decomp marker (`// FUNCTION: LEGO1 0x1000`, ...). */
  datatype MarkerType =
    | Unknown | Function | Stub | Synthetic | Template | Library
    | Global | StringMarker | Vtable

  /** The category under which markers collide. */
  datatype MarkerCategory = AddressCat | FunctionCat | VariableCat | StringCat | VtableCat

  type MarkerKey = (MarkerCategory, string, Option<string>)

  /** A decomp marker: its type, module, address and, for a vtable, the base class. */
  datatype Marker = Marker(mtype: MarkerType, moduleName: string, offset: int, extra: Option<string>) {
    predicate IsRegularFunction() { mtype == Function || mtype == Stub }
    predicate IsTemplate() { mtype == Template }
    predicate IsSynthetic() { mtype == Synthetic }
    predicate IsLibrary() { mtype == Library }
    predicate IsVariable() { mtype == Global }
    predicate IsString() { mtype == StringMarker }
    predicate IsVtable() { mtype == Vtable }
    predicate IsExplicitByName() { IsTemplate() || IsSynthetic() || IsLibrary() }

    /** Only a GLOBAL or STRING marker may appear inside a function body. */
    predicate AllowedInFunc() { IsVariable() || IsString() }

    function Category(): MarkerCategory {
      if IsVtable() then VtableCat
      else if IsVariable() then VariableCat
      else if IsString() then StringCat
      else if IsRegularFunction() || IsExplicitByName() then FunctionCat
      else AddressCat
    }

    function Key(): MarkerKey { (Category(), moduleName, extra) }
  }

  /**
   * What the comment helpers report about a `//` comment: the marker it
   * holds, whether it is written exactly, the name a nameref comment gives
   * (`// Foo::Bar`) and the class a vtable comment declares.
   */
  datatype Note = Note(marker: Option<Marker>, exact: bool, name: Option<string>, className: Option<string>)

  const NoNote := Note(None, true, None, None)

  /** A token: its kind, the line it starts on, its text and, for a comment, its note. */
  datatype Token = Token(kind: TokenType, line: int, value: string, note: Note)
}

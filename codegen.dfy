/**
 * The stub generator's text helpers: the calling-convention keyword for a
 * cvdump call type, the cached type-name lookup, and the parameter list of a
 * function prototype.
 *
 * Type keys are natural numbers. `isScalar` stands for
 * `CvdumpTypeKey.is_scalar`, `scalars` for `CvdumpTypeMap` (a scalar's name
 * and, for a pointer scalar, the key it points to) and `types` for the
 * `name` attribute of each parsed type leaf; these tables belong to modules
 * that are not part of this model.
 */
module Codegen {
  import opened Wrappers
  import opened Order

  /** `call_convention`: the first of "Fast", "STD", "C" that occurs picks the keyword. */
  function CallConvention(callType: string): (r: string)
    ensures r == "__fastcall" <==> Contains(callType, "Fast")
    ensures r == "__stdcall" <==> !Contains(callType, "Fast") && Contains(callType, "STD")
    ensures r == "__cdecl" <==> !Contains(callType, "Fast") && !Contains(callType, "STD") && Contains(callType, "C")
    ensures r == "" <==> !Contains(callType, "Fast") && !Contains(callType, "STD") && !Contains(callType, "C")
  {
    if Contains(callType, "Fast") then "__fastcall"
    else if Contains(callType, "STD") then "__stdcall"
    else if Contains(callType, "C") then "__cdecl"
    else ""
  }

  /** CodeView's T_NOTYPE, which closes a variadic argument list. */
  const NoType: nat := 0

  datatype Scalar = Scalar(name: string, pointer: Option<nat>)

  /** A pointer scalar points to a scalar of a smaller key (the mode bits sit above the base type). */
  ghost predicate PointersDescend(scalars: map<nat, Scalar>)
  {
    forall k :: k in scalars && scalars[k].pointer.Some? ==> scalars[k].pointer.value < k
  }

  /** The collaborators of the lookup, which do not change while it runs. */
  datatype Tables = Tables(isScalar: nat -> bool, scalars: map<nat, Scalar>, types: map<nat, Option<string>>)

  /**
   * `get_type_name` on a cache: the name and the cache afterwards; a scalar
   * key missing from the scalar table raises KeyError.
   */
  function NameOf(tb: Tables, cache: map<nat, string>, key: nat): (r: Result<(string, map<nat, string>)>)
    requires PointersDescend(tb.scalars)
    decreases key
  {
    if key in cache then Ok((cache[key], cache))
    else if tb.isScalar(key) then
      if key !in tb.scalars then Err(KeyError)
      else
        match tb.scalars[key].pointer
        case Some(p) =>
          (match NameOf(tb, cache, p)
           case Err(e) => Err(e)
           case Ok((n, c)) => Ok((n + " *", c[key := n + " *"])))
        case None => Ok((tb.scalars[key].name, cache[key := tb.scalars[key].name]))
    else if key !in tb.types || tb.types[key].None? || tb.types[key].value == "" then Ok(("???", cache))
    else Ok((tb.types[key].value, cache[key := tb.types[key].value]))
  }

  /** `c'` keeps every entry of `c`. */
  ghost predicate Grows(c: map<nat, string>, c': map<nat, string>)
  {
    forall k :: k in c ==> k in c' && c'[k] == c[k]
  }

  /**
   * The lookup only adds to the cache, and afterwards the key is cached with
   * the name returned, except for the "???" fallback, which is not cached.
   */
  lemma {:induction false} NameOfCaches(tb: Tables, cache: map<nat, string>, key: nat)
    requires PointersDescend(tb.scalars) && NameOf(tb, cache, key).Ok?
    ensures var (n, c') := NameOf(tb, cache, key).value;
      && Grows(cache, c')
      && ((key in c' && c'[key] == n) || (n == "???" && c' == cache && key !in cache))
    decreases key
  {
    if key !in cache && tb.isScalar(key) && tb.scalars[key].pointer.Some? {
      NameOfCaches(tb, cache, tb.scalars[key].pointer.value);
    }
  }

  /** A cached key is answered from the cache, and asking again changes nothing. */
  lemma NameOfStable(tb: Tables, cache: map<nat, string>, key: nat)
    requires PointersDescend(tb.scalars) && NameOf(tb, cache, key).Ok?
    ensures var (n, c') := NameOf(tb, cache, key).value;
      NameOf(tb, c', key) == Ok((n, c'))
  {
    NameOfCaches(tb, cache, key);
  }

  /** An uncached pointer scalar is named after its target, with " *" appended. */
  lemma PointerScalarName(tb: Tables, cache: map<nat, string>, key: nat)
    requires PointersDescend(tb.scalars) && key !in cache && tb.isScalar(key)
    requires key in tb.scalars && tb.scalars[key].pointer.Some?
    ensures var p := tb.scalars[key].pointer.value;
      && (NameOf(tb, cache, key).Ok? <==> NameOf(tb, cache, p).Ok?)
      && (NameOf(tb, cache, key).Ok? ==> NameOf(tb, cache, key).value.0 == NameOf(tb, cache, p).value.0 + " *")
  {}

  /**
   * The names of the arguments, looked up in order, each lookup seeing the
   * cache the one before left; after an exception, the cache the
   * successful lookups before it left.
   */
  function NamesOf(tb: Tables, cache: map<nat, string>, args: seq<nat>): (r: (Result<seq<string>>, map<nat, string>))
    requires PointersDescend(tb.scalars)
    ensures r.0.Ok? ==> |r.0.value| == |args|
  {
    if args == [] then (Ok([]), cache)
    else
      match NamesOf(tb, cache, args[..|args| - 1])
      case (Err(e), c) => (Err(e), c)
      case (Ok(ns), c) =>
        match NameOf(tb, c, args[|args| - 1])
        case Err(e) => (Err(e), c)
        case Ok((n, c')) => (Ok(ns + [n]), c')
  }

  /** The arguments' lookups only add to the cache. */
  lemma {:induction false} NamesOfGrows(tb: Tables, cache: map<nat, string>, args: seq<nat>)
    requires PointersDescend(tb.scalars)
    ensures Grows(cache, NamesOf(tb, cache, args).1)
  {
    if args != [] {
      NamesOfGrows(tb, cache, args[..|args| - 1]);
      var c := NamesOf(tb, cache, args[..|args| - 1]).1;
      if NamesOf(tb, cache, args[..|args| - 1]).0.Ok? && NameOf(tb, c, args[|args| - 1]).Ok? {
        NameOfCaches(tb, c, args[|args| - 1]);
      }
    }
  }

  /** `" ".join(filter(None, (type, name)))`. */
  function Param(typeName: string, name: string): string
  {
    if typeName == "" then name else if name == "" then typeName else typeName + " " + name
  }

  function JoinComma(parts: seq<string>): string
  {
    if parts == [] then "" else if |parts| == 1 then parts[0] else JoinComma(parts[..|parts| - 1]) + ", " + parts[|parts| - 1]
  }

  /** The parameters: "type p_i" numbered from 1, the last replaced by "..." when the list is variadic. */
  function Params(names: seq<string>, variadic: bool): (ps: seq<string>)
    ensures |ps| == |names|
  {
    seq(|names|, i requires 0 <= i < |names| =>
      if variadic && i == |names| - 1 then "..." else Param(names[i], "p_" + DecimalString(i + 1)))
  }

  /** `get_arglist` once the names are known. */
  function ArglistText(names: seq<string>, variadic: bool): string
  {
    if names == [] then "()" else "(" + JoinComma(Params(names, variadic)) + ")"
  }

  /**
   * What the parameter list holds: "()" for no arguments; otherwise one
   * parameter per argument, parameter i named "p_i" after its type name
   * (or alone when the name is empty), and "..." last when the final
   * argument is T_NOTYPE.
   */
  lemma ArglistShape(names: seq<string>, variadic: bool)
    ensures names == [] ==> ArglistText(names, variadic) == "()"
    ensures var ps := Params(names, variadic);
      && |ps| == |names|
      && (forall i :: 0 <= i < |names| && !(variadic && i == |names| - 1) ==>
            ps[i] == (if names[i] == "" then "" else names[i] + " ") + "p_" + DecimalString(i + 1))
      && (variadic && names != [] ==> ps[|names| - 1] == "...")
  {
    var ps := Params(names, variadic);
    forall i | 0 <= i < |names| && !(variadic && i == |names| - 1)
      ensures ps[i] == (if names[i] == "" then "" else names[i] + " ") + "p_" + DecimalString(i + 1)
    {
      if names[i] != "" {
        assert names[i] + " " + ("p_" + DecimalString(i + 1)) == names[i] + " " + "p_" + DecimalString(i + 1);
      }
    }
  }

  /** `ReccmpFertilizer`'s name cache and the lookups that fill it. */
  class Fertilizer {
    var nameCache: map<nat, string>
    const tables: Tables

    ghost predicate Valid()
    {
      PointersDescend(tables.scalars)
    }

    /** The cache starts as the scalar translation table. */
    constructor (tb: Tables, translate: map<nat, string>)
      requires PointersDescend(tb.scalars)
      ensures Valid() && tables == tb && nameCache == translate
    {
      tables := tb;
      nameCache := translate;
    }

    /** `get_type_name`. */
    method GetTypeName(key: nat) returns (r: Result<string>)
      requires Valid()
      modifies this`nameCache
      ensures NameOf(tables, old(nameCache), key).Err? ==>
        r == Err(NameOf(tables, old(nameCache), key).error) && nameCache == old(nameCache)
      ensures NameOf(tables, old(nameCache), key).Ok? ==>
        r == Ok(NameOf(tables, old(nameCache), key).value.0) && nameCache == NameOf(tables, old(nameCache), key).value.1
      decreases key
    {
      if key in nameCache {
        return Ok(nameCache[key]);
      }
      if tables.isScalar(key) {
        if key !in tables.scalars {
          return Err(KeyError);
        }
        var ptype := tables.scalars[key];
        var name: string;
        if ptype.pointer.Some? {
          var inner := GetTypeName(ptype.pointer.value);
          if inner.Err? {
            return inner;
          }
          name := inner.value + " *";
        } else {
          name := ptype.name;
        }
        nameCache := nameCache[key := name];
        return Ok(name);
      }
      if key !in tables.types || tables.types[key].None? || tables.types[key].value == "" {
        return Ok("???");
      }
      var name := tables.types[key].value;
      nameCache := nameCache[key := name];
      return Ok(name);
    }

    /** `get_arglist`: every argument's type is looked up, the last one included. */
    method GetArglist(args: seq<nat>) returns (r: Result<string>)
      requires Valid()
      modifies this`nameCache
      ensures nameCache == NamesOf(tables, old(nameCache), args).1
      ensures NamesOf(tables, old(nameCache), args).0.Err? ==> r == Err(NamesOf(tables, old(nameCache), args).0.error)
      ensures NamesOf(tables, old(nameCache), args).0.Ok? ==>
        r == Ok(ArglistText(NamesOf(tables, old(nameCache), args).0.value, args != [] && args[|args| - 1] == NoType))
    {
      if args == [] {
        return Ok("()");
      }
      ghost var c0 := nameCache;
      var names: seq<string> := [];
      var i := 0;
      while i < |args|
        invariant 0 <= i <= |args|
        invariant NamesOf(tables, c0, args[..i]) == (Ok(names), nameCache)
      {
        assert args[..i + 1][..i] == args[..i];
        var n := GetTypeName(args[i]);
        if n.Err? {
          NamesErrSticks(tables, c0, args, i + 1);
          return Err(n.error);
        }
        names := names + [n.value];
        i := i + 1;
      }
      assert args[..i] == args;
      return Ok(ArglistText(names, args[|args| - 1] == NoType));
    }
  }

  lemma {:induction false} NamesErrSticks(tb: Tables, cache: map<nat, string>, args: seq<nat>, i: nat)
    requires PointersDescend(tb.scalars) && i <= |args| && NamesOf(tb, cache, args[..i]).0.Err?
    ensures NamesOf(tb, cache, args) == NamesOf(tb, cache, args[..i])
    decreases |args| - i
  {
    if i < |args| {
      assert args[..i + 1][..i] == args[..i];
      NamesErrSticks(tb, cache, args, i + 1);
    } else {
      assert args[..i] == args;
    }
  }
}

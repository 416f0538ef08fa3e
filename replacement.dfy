/**
 * The name-replacement rule of the assembly differ: an address in an
 * instruction operand is replaced by the name of the entity at that address,
 * by "name+offset" inside a data entity, or through one indirection by the
 * name of what the pointer in the binary points at.
 *
 * The entity lookup and the binary reader are parameters: `get(addr, exact)`
 * is the database getter of one side, `read(addr, n)` reads `n` bytes of that
 * side's image, an `Err` standing for the exceptions the rule catches.
 */
module Replacement {
  import opened Wrappers
  import opened JsonBag
  import opened Bytes
  import opened CompareDb

  /** Which address attribute the lookup compares: `orig_addr` or `recomp_addr`. */
  datatype Side = OrigSide | RecompSide

  function AddrOf(e: Entity, side: Side): Option<int>
  {
    match side
    case OrigSide => e.orig
    case RecompSide => e.recomp
  }

  /** The entity's comparison type. `compare_type` is not defined in the modelled files;
      it is assumed to read the `type` attribute. */
  function CompareType(e: Entity): Option<EntityType>
  {
    match EntityTypeOf(e)
    case JStr(s) => TypeFromValue(s)
    case _ => None
  }

  /** `offset >= m.size`: an int (or bool) compares, anything else raises TypeError. */
  function AtOrPastSize(offset: int, size: Value): (r: Result<bool>)
    ensures size.JInt? ==> r == Ok(offset >= size.i)
    ensures size.JNull? || size.JStr? ==> r == Err(TypeError)
  {
    match size
    case JInt(i) => Ok(offset >= i)
    case JBool(b) => Ok(offset >= (if b then 1 else 0))
    case _ => Err(TypeError)
  }

  /** `"->" + name`; concatenating None raises TypeError. */
  function Arrow(name: Option<string>): (r: Result<Option<string>>)
    ensures name.Some? <==> r.Ok?
    ensures name.Some? ==> r == Ok(Some("->" + name.value))
  {
    match name
    case None => Err(TypeError)
    case Some(n) => Ok(Some("->" + n))
  }

  /** The second half of `lookup`, once the entity (if any) is known. */
  function Resolve(m: Option<Entity>, side: Side, addr: int, indirect: bool): Result<Option<string>>
  {
    match m
    case None => Ok(None)
    case Some(e) =>
      match AddrOf(e, side)
      case None => Err(TypeError)
      case Some(a) =>
        if a == addr then
          var best := MatchName(e);
          if indirect && best.Some? then Ok(Some("->" + best.value)) else Ok(best)
        else
          var offset := addr - a;
          if CompareType(e) != Some(DATA) then Ok(None)
          else
            match AtOrPastSize(offset, SizeOf(e))
            case Err(err) => Err(err)
            case Ok(past) => if past then Ok(None) else Ok(OffsetName(e, offset))
  }

  /** `lookup(addr, exact, indirect)`; an `Err` is an exception the rule does not catch. */
  function Lookup(get: (int, bool) -> Option<Entity>, read: (int, int) -> Result<byteseq>,
                  side: Side, addr: int, exact: bool, indirect: bool): Result<Option<string>>
  {
    var m := get(addr, indirect || exact);
    if indirect && m.Some? && CompareType(m.value) == Some(DATA) then Ok(MatchName(m.value))
    else if indirect && m.Some? && CompareType(m.value) == Some(PTR) then Arrow(MatchName(m.value))
    else if indirect then
      match read(addr, 4)
      case Err(_) => Ok(None)
      case Ok(b) =>
        if |b| != 4 then Ok(None)
        else Resolve(get(U32(b, 0), true), side, U32(b, 0), true)
    else Resolve(m, side, addr, false)
  }

  /** An indirect lookup looks the address up exactly whatever `exact` says. */
  lemma IndirectImpliesExact(get: (int, bool) -> Option<Entity>, read: (int, int) -> Result<byteseq>,
                             side: Side, addr: int, exact: bool)
    ensures Lookup(get, read, side, addr, exact, true) == Lookup(get, read, side, addr, true, true)
  {}

  /** An indirect hit on a DATA entity names the variable; on a pointer entity it names the target with "->". */
  lemma IndirectHitNamesVariable(get: (int, bool) -> Option<Entity>, read: (int, int) -> Result<byteseq>,
                                 side: Side, addr: int, exact: bool)
    requires get(addr, true).Some?
    ensures CompareType(get(addr, true).value) == Some(DATA) ==>
      Lookup(get, read, side, addr, exact, true) == Ok(MatchName(get(addr, true).value))
    ensures CompareType(get(addr, true).value) == Some(PTR) && MatchName(get(addr, true).value).Some? ==>
      Lookup(get, read, side, addr, exact, true) == Ok(Some("->" + MatchName(get(addr, true).value).value))
  {}

  /**
   * Otherwise an indirect lookup dereferences the 32-bit little-endian
   * pointer stored at `addr` and looks the target up exactly; a failed or
   * short read gives no name.
   */
  lemma IndirectDereferences(get: (int, bool) -> Option<Entity>, read: (int, int) -> Result<byteseq>,
                             side: Side, addr: int, exact: bool)
    requires get(addr, true).None? || CompareType(get(addr, true).value) !in {Some(DATA), Some(PTR)}
    ensures read(addr, 4).Err? || |read(addr, 4).value| != 4 ==> Lookup(get, read, side, addr, exact, true) == Ok(None)
    ensures read(addr, 4).Ok? && |read(addr, 4).value| == 4 ==>
      var target := U32(read(addr, 4).value, 0);
      Lookup(get, read, side, addr, exact, true) == Resolve(get(target, true), side, target, true)
  {}

  /**
   * An entity found at exactly the looked-up address gives its match name,
   * prefixed "->" after an indirection when there is one.
   */
  lemma ExactHitGivesMatchName(e: Entity, side: Side, addr: int, indirect: bool)
    requires AddrOf(e, side) == Some(addr)
    ensures !indirect || MatchName(e).None? ==> Resolve(Some(e), side, addr, indirect) == Ok(MatchName(e))
    ensures indirect && MatchName(e).Some? ==> Resolve(Some(e), side, addr, indirect) == Ok(Some("->" + MatchName(e).value))
  {}

  /**
   * An entity found below the address gives a name only when it is DATA and
   * the address lies inside it; the name is then "name+offset (OFFSET)".
   */
  lemma OffsetHitOnlyInsideData(e: Entity, side: Side, addr: int, indirect: bool)
    requires AddrOf(e, side).Some? && AddrOf(e, side).value != addr
    ensures var offset := addr - AddrOf(e, side).value;
      Resolve(Some(e), side, addr, indirect).Ok? && Resolve(Some(e), side, addr, indirect).value.Some? ==>
        && CompareType(e) == Some(DATA)
        && (SizeOf(e).JInt? ==> offset < SizeOf(e).i)
        && Resolve(Some(e), side, addr, indirect) == Ok(OffsetName(e, offset))
    ensures CompareType(e) != Some(DATA) ==> Resolve(Some(e), side, addr, indirect) == Ok(None)
  {}

  /** The orig-side getter of the entity table. */
  function OrigGetter(t: Table): (int, bool) -> Option<Entity>
  {
    (a: int, ex: bool) => GetByOrig(t, a, ex)
  }

  /**
   * `o` is the greatest orig address at or below `addr`, and `addr` is `o`
   * itself or lies inside the DATA entity at `o`.
   */
  ghost predicate NamedFrom(t: Table, addr: int, o: int)
  {
    && o in t.origRows && o <= addr
    && (forall o' :: o' in t.origRows && o' <= addr ==> o' <= o)
    && (o == addr || (CompareType(EntityAtOrig(t, o)) == Some(DATA)
        && (SizeOf(EntityAtOrig(t, o)).JInt? ==> addr - o < SizeOf(EntityAtOrig(t, o)).i)))
  }

  /**
   * Over the orig side of the table, a direct non-exact lookup that yields a
   * name either hits an entity exactly at the address or lies inside the
   * DATA entity with the greatest orig address below it, at a non-negative
   * offset smaller than its size.
   */
  lemma {:induction false} OrigLookupInside(t: Table, read: (int, int) -> Result<byteseq>, addr: int)
    requires Lookup(OrigGetter(t), read, OrigSide, addr, false, false).Ok?
    requires Lookup(OrigGetter(t), read, OrigSide, addr, false, false).value.Some?
    ensures exists o :: NamedFrom(t, addr, o)
  {
    var m := GetByOrig(t, addr, false);
    assert OrigGetter(t)(addr, false) == m;
    assert Lookup(OrigGetter(t), read, OrigSide, addr, false, false) == Resolve(m, OrigSide, addr, false);
    var e := m.value;
    var o := e.orig.value;
    assert e == EntityAtOrig(t, o);
    if o != addr {
      OffsetHitOnlyInsideData(e, OrigSide, addr, false);
    }
    assert NamedFrom(t, addr, o);
  }
}

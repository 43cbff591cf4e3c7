/**
  The converter factory: a process-wide table from result type to the
  function that builds a converter for it, with the invalid type id standing
  for the default converter, and the null-geometry check every conversion
  starts with.
 */
module ConverterFactory {
  import opened Wrappers
  import opened Houdini

  /** IECore::TypeId, an enumerated run-time type identifier. */
  type TypeId = int

  /** The type id that no class has; the registry keys the default converter under it. */
  const InvalidTypeId: TypeId := 0

  /** The registry key: the result type a converter produces. */
  datatype Types = Types(resultType: TypeId)

  /** Types::operator<, the ordering of the registry's keys. */
  predicate Less(a: Types, b: Types)
  {
    a.resultType < b.resultType
  }

  /**
    The key ordering is a strict weak ordering in which two keys are
    equivalent exactly when they are equal, so the ordered map behaves as a
    map keyed by `Types` values.
   */
  lemma LessIsStrictOrder()
    ensures forall a: Types :: !Less(a, a)
    ensures forall a: Types, b: Types, c: Types :: Less(a, b) && Less(b, c) ==> Less(a, c)
    ensures forall a: Types, b: Types :: !Less(a, b) && !Less(b, a) <==> a == b
  {
  }

  /** A GU_DetailHandle: the geometry it locks, or none. */
  datatype Handle = Handle(geometry: Option<Geometry>)

  /** A creator function, known by the concrete converter it builds. */
  datatype Creator = Creator(converterName: string)

  /** What a creator returns for a handle: its converter, bound to that handle. */
  datatype Converter = Converter(creator: Creator, handle: Handle)

  /** The contents of the table. */
  type Registry = map<Types, Creator>

  /** std::map::insert: the pair goes in only when its key is absent; an existing entry is kept. */
  function Insert(m: Registry, key: Types, creator: Creator): (r: Registry)
    ensures r.Keys == m.Keys + {key}
    ensures key in m ==> r == m
    ensures key !in m ==> r[key] == creator
    ensures forall k <- m :: r[k] == m[k]
  {
    if key in m then m else m[key := creator]
  }

  /**
    The table after registerConverter: `resultType` is mapped to `creator`,
    and so is the invalid type id when `isDefault`, each only where no
    earlier registration holds the key.
   */
  function Register(m: Registry, resultType: TypeId, isDefault: bool, creator: Creator): (r: Registry)
    ensures r.Keys == m.Keys + {Types(resultType)} + (if isDefault then {Types(InvalidTypeId)} else {})
    ensures forall k <- m :: r[k] == m[k]
    ensures Types(resultType) !in m ==> r[Types(resultType)] == creator
    ensures isDefault && Types(InvalidTypeId) !in m ==> r[Types(InvalidTypeId)] == creator
  {
    var withType := Insert(m, Types(resultType), creator);
    if isDefault then Insert(withType, Types(InvalidTypeId), creator) else withType
  }

  /** One call to registerConverter. */
  datatype Registration = Registration(resultType: TypeId, isDefault: bool, creator: Creator)

  /** The keys a registration asks for. */
  predicate Covers(reg: Registration, key: Types)
  {
    key == Types(reg.resultType) || (reg.isDefault && key == Types(InvalidTypeId))
  }

  /** The table after a sequence of registrations, in order. */
  function RegisterAll(m: Registry, regs: seq<Registration>): Registry
    decreases |regs|
  {
    if regs == [] then m
    else RegisterAll(Register(m, regs[0].resultType, regs[0].isDefault, regs[0].creator), regs[1..])
  }

  /** Registrations never drop or replace an entry already in the table. */
  lemma {:induction false} RegisterAllKeeps(m: Registry, regs: seq<Registration>, key: Types)
    requires key in m
    ensures key in RegisterAll(m, regs) && RegisterAll(m, regs)[key] == m[key]
    decreases |regs|
  {
    if regs != [] {
      RegisterAllKeeps(Register(m, regs[0].resultType, regs[0].isDefault, regs[0].creator), regs[1..], key);
    }
  }

  /** A key is in the table exactly when it was there before or some registration asks for it. */
  lemma {:induction false} RegisterAllKeys(m: Registry, regs: seq<Registration>, key: Types)
    ensures key in RegisterAll(m, regs) <==> key in m || exists j :: 0 <= j < |regs| && Covers(regs[j], key)
    decreases |regs|
  {
    if regs != [] {
      var m' := Register(m, regs[0].resultType, regs[0].isDefault, regs[0].creator);
      RegisterAllKeys(m', regs[1..], key);
      if exists j :: 0 <= j < |regs| && Covers(regs[j], key) {
        var j :| 0 <= j < |regs| && Covers(regs[j], key);
        if j > 0 {
          assert Covers(regs[1..][j - 1], key);
        }
      }
      if exists j :: 0 <= j < |regs[1..]| && Covers(regs[1..][j], key) {
        var j :| 0 <= j < |regs[1..]| && Covers(regs[1..][j], key);
        assert Covers(regs[j + 1], key);
      }
    }
  }

  /**
    The first registration that asks for a key wins it: later ones, for the
    same result type or as the default, leave it as it is.
   */
  lemma {:induction false} FirstRegistrationWins(m: Registry, regs: seq<Registration>, key: Types, j: nat)
    requires key !in m
    requires j < |regs| && Covers(regs[j], key)
    requires forall i :: 0 <= i < j ==> !Covers(regs[i], key)
    ensures key in RegisterAll(m, regs) && RegisterAll(m, regs)[key] == regs[j].creator
    decreases |regs|
  {
    var m' := Register(m, regs[0].resultType, regs[0].isDefault, regs[0].creator);
    if j == 0 {
      RegisterAllKeeps(m', regs[1..], key);
    } else {
      assert !Covers(regs[0], key);
      forall i | 0 <= i < j - 1
        ensures !Covers(regs[1..][i], key)
      {
        assert regs[1..][i] == regs[i + 1];
      }
      FirstRegistrationWins(m', regs[1..], key, j - 1);
    }
  }

  /** The process-wide converter table (the static map behind typesToFns). */
  class ConverterRegistry {
    var typesToFns: Registry

    constructor ()
      ensures typesToFns == map[]
    {
      typesToFns := map[];
    }

    method RegisterConverter(resultType: TypeId, isDefault: bool, creator: Creator)
      modifies this
      ensures typesToFns == Register(old(typesToFns), resultType, isDefault, creator)
    {
      typesToFns := Insert(typesToFns, Types(resultType), creator);
      if isDefault {
        typesToFns := Insert(typesToFns, Types(InvalidTypeId), creator);
      }
    }

    /**
      create: the converter registered for exactly `resultType`, or none. The
      default is reached only by asking for the invalid type id.
     */
    function Create(handle: Handle, resultType: TypeId): (r: Option<Converter>)
      reads this
      ensures r.Some? <==> Types(resultType) in typesToFns
      ensures r.Some? ==> r.value.creator == typesToFns[Types(resultType)] && r.value.handle == handle
    {
      var key := Types(resultType);
      if key in typesToFns then Some(Converter(typesToFns[key], handle)) else None
    }
  }

  /**
    After a sequence of registrations on an empty table, `create` yields the
    converter of the first registration that asked for the type (or, for the
    invalid type id, the first default), and nothing when none did.
   */
  lemma CreateAfterRegistrations(registry: ConverterRegistry, regs: seq<Registration>, handle: Handle, resultType: TypeId)
    requires registry.typesToFns == RegisterAll(map[], regs)
    ensures (forall j :: 0 <= j < |regs| ==> !Covers(regs[j], Types(resultType))) ==>
              registry.Create(handle, resultType) == None
    ensures forall j :: 0 <= j < |regs| && Covers(regs[j], Types(resultType))
                        && (forall i :: 0 <= i < j ==> !Covers(regs[i], Types(resultType))) ==>
              registry.Create(handle, resultType) == Some(Converter(regs[j].creator, handle))
  {
    RegisterAllKeys(map[], regs, Types(resultType));
    forall j | 0 <= j < |regs| && Covers(regs[j], Types(resultType))
               && (forall i :: 0 <= i < j ==> !Covers(regs[i], Types(resultType)))
      ensures registry.Create(handle, resultType) == Some(Converter(regs[j].creator, handle))
    {
      FirstRegistrationWins(map[], regs, Types(resultType), j);
    }
  }

  /**
    doConversion: no result when the handle locks no geometry; otherwise the
    result of the concrete converter's own conversion of that geometry and the
    operands.
   */
  function DoConversion<O, R>(handle: Handle, operands: O, doPrimitiveConversion: (Geometry, O) -> R): (r: Option<R>)
    ensures r.None? <==> handle.geometry.None?
    ensures r.Some? ==> r.value == doPrimitiveConversion(handle.geometry.value, operands)
  {
    match handle.geometry
    case None => None
    case Some(geo) => Some(doPrimitiveConversion(geo, operands))
  }
}

/**
 * DotnetScanner/Scanner/SignatureTypeProvider.cs: the older provider, which
 * answers each callback of the signature decoder (section 23.2.12 of ECMA-335
 * Partition II) with a type node interned under a string id. The decoder's
 * walk is `Decode`; what it interns is specified by the pure `SignatureId`.
 */
module DotnetSignatures {
  import opened Wrappers
  import opened Strings
  import opened Srm
  import opened NetModelFactory
  import opened NetSignatures
  import opened ArrayShapes
  import opened DotnetIds
  import opened DotnetModel
  import opened DotnetNodeFactory

  /**
   * `GetPrimitiveType`'s switch: the short runtime name, without namespace, of
   * the type each code stands for. `TypedReference` is answered with the name
   * of `System.Reflection.Metadata.TypeReference`, the type the identifier
   * resolves to in that file.
   */
  function PrimitiveId(code: int): Option<string>
  {
    if code == CodeBoolean then Some("Boolean")
    else if code == CodeByte then Some("Byte")
    else if code == CodeSByte then Some("SByte")
    else if code == CodeChar then Some("Char")
    else if code == CodeInt16 then Some("Int16")
    else if code == CodeUInt16 then Some("UInt16")
    else if code == CodeInt32 then Some("Int32")
    else if code == CodeUInt32 then Some("UInt32")
    else if code == CodeInt64 then Some("Int64")
    else if code == CodeUInt64 then Some("UInt64")
    else if code == CodeSingle then Some("Single")
    else if code == CodeDouble then Some("Double")
    else if code == CodeIntPtr then Some("IntPtr")
    else if code == CodeUIntPtr then Some("UIntPtr")
    else if code == CodeObject then Some("Object")
    else if code == CodeString then Some("String")
    else if code == CodeTypedReference then Some("TypeReference")
    else if code == CodeVoid then Some("Void")
    else None
  }

  /** Primitive ids are bare names: no namespace, so no dot. */
  lemma PrimitiveIdsAreShort(code: int)
    requires PrimitiveId(code).Some?
    ensures '.' !in PrimitiveId(code).value && |PrimitiveId(code).value| > 0
  {
  }

  lemma PrimitiveIdsByName()
    ensures PrimitiveId(CodeInt32) == Some("Int32") && PrimitiveId(CodeBoolean) == Some("Boolean")
    ensures PrimitiveId(CodeVoid) == Some("Void") && PrimitiveId(CodeTypedReference) == Some("TypeReference")
    ensures PrimitiveId(0x00).None? && PrimitiveId(0x15).None?
  {
  }

  /** The id of a general array: the element's id followed by the shape. */
  function GeneralArrayId(element: string, shape: ArrayShape): (id: string)
  {
    element + ShapeSuffix(shape)
  }

  /** The id of a generic instantiation: the generic type's id, then the argument ids in angle brackets. */
  function InstantiationId(genericType: string, arguments: seq<string>): (id: string)
  {
    genericType + "<" + Join(",", arguments) + ">"
  }

  /** A type definition or reference handle's id; the nil handle gives null, which the factory refuses. */
  function HandleId(id: Option<string>): (r: Result<string>)
    ensures r.Ok? <==> id.Some?
    ensures r.Ok? ==> r.value == id.value
    ensures r.Err? ==> r.error == ArgumentNull
  {
    if id.Some? then Ok(id.value) else Err(ArgumentNull)
  }

  /**
   * The id `Decode` interns for a signature element, or the exception the
   * first failing callback throws, in the decoder's order: a generic type
   * before its arguments, a modifier before the type it modifies, and a
   * function pointer's signature before the callback that refuses it.
   */
  function SignatureId(reader: MetadataReader, t: SignatureType): (r: Result<string>)
    requires WellFormed(reader) && ValidSignature(reader, t)
    decreases t
  {
    match t
    case Primitive(code) =>
      if PrimitiveId(code).Some? then Ok(PrimitiveId(code).value) else Err(ArgumentOutOfRange)
    case TypeDefinitionElement(h) => HandleId(DefinitionHandleId(reader, h))
    case TypeReferenceElement(h) => HandleId(ReferenceHandleId(reader, h))
    case TypeSpecificationElement(_) => Err(NotImplemented)
    case SZArray(e) =>
      var id := SignatureId(reader, e);
      if id.Err? then id else Ok(id.value + "[]")
    case GeneralArray(e, shape) =>
      var id := SignatureId(reader, e);
      if id.Err? then id else Ok(GeneralArrayId(id.value, shape))
    case GenericInstantiation(g, args) =>
      var id := SignatureId(reader, g);
      if id.Err? then id
      else
        var ids := SignatureIds(reader, args, t);
        if ids.Err? then Err(ids.error) else Ok(InstantiationId(id.value, ids.value))
    case ByReference(e) =>
      var id := SignatureId(reader, e);
      if id.Err? then id else Ok(id.value + "&")
    case Pointer(e) =>
      var id := SignatureId(reader, e);
      if id.Err? then id else Ok(id.value + "*")
    case FunctionPointer(ret, ps) =>
      var id := SignatureId(reader, ret);
      if id.Err? then id
      else
        var ids := SignatureIds(reader, ps, t);
        if ids.Err? then Err(ids.error) else Err(NotImplemented)
    case GenericTypeParameter(index) => Ok("!" + IntToString(index))
    case GenericMethodParameter(index) => Ok("!!" + IntToString(index))
    case Modified(m, u, _) =>
      var mid := SignatureId(reader, m);
      if mid.Err? then mid
      else
        var uid := SignatureId(reader, u);
        if uid.Err? then uid else Ok(mid.value + " " + uid.value)
    case Pinned(e) =>
      var id := SignatureId(reader, e);
      if id.Err? then id else Ok(id.value + " pinned")
  }

  /** The ids of a list of elements decoded left to right, or the first failure. */
  function SignatureIds(reader: MetadataReader, ts: seq<SignatureType>, ghost parent: SignatureType): (r: Result<seq<string>>)
    requires WellFormed(reader) && Below(reader, ts, parent)
    ensures r.Ok? ==> |r.value| == |ts|
    decreases parent, |ts|
  {
    if |ts| == 0 then Ok([])
    else
      assert forall a :: a in ts[..|ts| - 1] ==> a in ts;
      var init := SignatureIds(reader, ts[..|ts| - 1], parent);
      if init.Err? then init
      else
        assert ts[|ts| - 1] in ts;
        var last := SignatureId(reader, ts[|ts| - 1]);
        if last.Err? then Err(last.error) else Ok(init.value + [last.value])
  }

  /** Ids of an element under one suffix constructor: the element's id followed by the suffix. */
  lemma SuffixIds(reader: MetadataReader, e: SignatureType)
    requires WellFormed(reader) && ValidSignature(reader, e) && SignatureId(reader, e).Ok?
    ensures var id := SignatureId(reader, e).value;
      && SignatureId(reader, SZArray(e)) == Ok(id + "[]")
      && SignatureId(reader, ByReference(e)) == Ok(id + "&")
      && SignatureId(reader, Pointer(e)) == Ok(id + "*")
      && SignatureId(reader, Pinned(e)) == Ok(id + " pinned")
  {
    var id := SignatureId(reader, e).value;
    assert SignatureId(reader, SZArray(e)) == Ok(id + "[]");
    assert SignatureId(reader, ByReference(e)) == Ok(id + "&");
    assert SignatureId(reader, Pointer(e)) == Ok(id + "*");
    assert SignatureId(reader, Pinned(e)) == Ok(id + " pinned");
  }

  /** A failing element makes every type built on it fail the same way: the exception ends the walk. */
  lemma FailurePropagates(reader: MetadataReader, e: SignatureType, shape: ArrayShape)
    requires WellFormed(reader) && ValidSignature(reader, e) && SignatureId(reader, e).Err?
    ensures SignatureId(reader, SZArray(e)) == SignatureId(reader, e)
    ensures SignatureId(reader, GeneralArray(e, shape)) == SignatureId(reader, e)
    ensures SignatureId(reader, ByReference(e)) == SignatureId(reader, e)
    ensures SignatureId(reader, Pointer(e)) == SignatureId(reader, e)
    ensures SignatureId(reader, Pinned(e)) == SignatureId(reader, e)
  {
  }

  /** Type specifications and function pointers are never decoded; a nil definition or reference handle throws too. */
  lemma UnsupportedElementsFail(reader: MetadataReader, t: SignatureType)
    requires WellFormed(reader) && ValidSignature(reader, t)
    requires || t.TypeSpecificationElement? || t.FunctionPointer?
             || (t.TypeDefinitionElement? && t.definition.IsNil())
             || (t.TypeReferenceElement? && t.reference.IsNil())
    ensures SignatureId(reader, t).Err?
    ensures t.TypeSpecificationElement? ==> SignatureId(reader, t) == Err(NotImplemented)
    ensures t.TypeDefinitionElement? || t.TypeReferenceElement? ==> SignatureId(reader, t) == Err(ArgumentNull)
  {
  }

  /** A definition is identified by its namespace and name, so its signature id is its `GetTypeId`. */
  lemma DefinitionElementId(reader: MetadataReader, h: TypeDefinitionHandle)
    requires WellFormed(reader) && ValidDefinition(reader, h) && !h.IsNil()
    ensures SignatureId(reader, TypeDefinitionElement(h)) == Ok(DefinitionId(reader, GetTypeDefinition(reader, h)))
  {
  }

  /** A one-dimensional general array never shares the id of the SZ array of the same element. */
  lemma GeneralArrayIsNotSZArray(element: string, shape: ArrayShape)
    requires shape.rank >= 1
    ensures GeneralArrayId(element, shape) != element + "[]"
  {
    GeneralArrayIsNotVector(shape);
    assert (element + ShapeSuffix(shape))[|element|..] == ShapeSuffix(shape);
    assert (element + "[]")[|element|..] == "[]";
  }

  /** "!i" never equals "!!j", and each of the two forms tells its indices apart. */
  lemma GenericParameterIdsDistinct(reader: MetadataReader, i: int, j: int)
    requires WellFormed(reader)
    ensures SignatureId(reader, GenericTypeParameter(i)) != SignatureId(reader, GenericMethodParameter(j))
    ensures SignatureId(reader, GenericTypeParameter(i)) == SignatureId(reader, GenericTypeParameter(j)) ==> i == j
    ensures SignatureId(reader, GenericMethodParameter(i)) == SignatureId(reader, GenericMethodParameter(j)) ==> i == j
  {
    var si, sj := IntToString(i), IntToString(j);
    assert si[0] == '-' || '0' <= si[0] <= '9';
    assert ("!" + si)[1] == si[0] && ("!!" + sj)[1] == '!';
    if SignatureId(reader, GenericTypeParameter(i)) == SignatureId(reader, GenericTypeParameter(j)) {
      assert si == ("!" + si)[1..] && sj == ("!" + sj)[1..];
      IntToStringInjective(i, j);
    }
    if SignatureId(reader, GenericMethodParameter(i)) == SignatureId(reader, GenericMethodParameter(j)) {
      assert si == ("!!" + si)[2..] && sj == ("!!" + sj)[2..];
      IntToStringInjective(i, j);
    }
  }

  /** The ids at the given positions, in order. */
  function IdsAt(keys: seq<string>, positions: seq<nat>): (ids: seq<string>)
    requires forall j :: 0 <= j < |positions| ==> positions[j] < |keys|
    ensures |ids| == |positions|
    ensures forall j :: 0 <= j < |positions| ==> ids[j] == keys[positions[j]]
  {
    seq(|positions|, j requires 0 <= j < |positions| => keys[positions[j]])
  }

  lemma RefersToIdsAt(keys: seq<string>, positions: seq<nat>, expected: seq<string>)
    requires RefersTo(keys, positions, expected)
    ensures forall j :: 0 <= j < |positions| ==> positions[j] < |keys|
    ensures IdsAt(keys, positions) == expected
  {
  }

  /** `SignatureIds` on the first j + 1 elements, unfolded once. */
  lemma SignatureIdsStep(reader: MetadataReader, ts: seq<SignatureType>, parent: SignatureType, j: nat)
    requires WellFormed(reader) && Below(reader, ts, parent) && j < |ts|
    ensures Below(reader, ts[..j], parent) && Below(reader, ts[..j + 1], parent)
    ensures ts[j] < parent && ValidSignature(reader, ts[j])
    ensures SignatureIds(reader, ts[..j + 1], parent)
         == var init := SignatureIds(reader, ts[..j], parent);
            if init.Err? then init
            else
              var last := SignatureId(reader, ts[j]);
              if last.Err? then Err(last.error) else Ok(init.value + [last.value])
  {
    BelowPrefix(reader, ts, parent, j);
    BelowPrefix(reader, ts, parent, j + 1);
    assert ts[..j + 1][..j] == ts[..j];
    assert ts[..j + 1][j] == ts[j];
    assert ts[j] in ts;
  }

  /** A failure on a prefix is the failure of the whole list: decoding stops at the first exception. */
  lemma {:induction false} SignatureIdsPrefixError(reader: MetadataReader, ts: seq<SignatureType>, parent: SignatureType, n: nat)
    requires WellFormed(reader) && Below(reader, ts, parent) && n <= |ts|
    requires Below(reader, ts[..n], parent) && SignatureIds(reader, ts[..n], parent).Err?
    ensures SignatureIds(reader, ts, parent) == SignatureIds(reader, ts[..n], parent)
    decreases |ts|
  {
    if n < |ts| {
      var init := ts[..|ts| - 1];
      BelowPrefix(reader, ts, parent, |ts| - 1);
      assert init[..n] == ts[..n];
      SignatureIdsPrefixError(reader, init, parent, n);
    } else {
      assert ts[..n] == ts;
    }
  }

  /** The provider: the factory it interns type nodes into. */
  class SignatureTypeProvider {
    const factory: NodeFactory

    constructor (factory: NodeFactory)
      ensures this.factory == factory
    {
      this.factory := factory;
    }

    /** The shared tail of every callback: `CreateTypeModel(id)`; only a null id throws. */
    method Intern(id: Option<string>) returns (r: Result<nat>)
      requires factory.Valid()
      modifies factory.typeMap
      ensures factory.Valid() && Extends(old(factory.typeMap.keys), factory.typeMap.keys)
      ensures Grows(old(factory.typeMap.nodes), factory.typeMap.nodes, NewType())
      ensures r.Ok? <==> id.Some?
      ensures r.Err? ==> r.error == ArgumentNull
      ensures r.Ok? ==> r.value < |factory.typeMap.keys| && factory.typeMap.keys[r.value] == id.value
    {
      ghost var k0, n0, i0 := factory.typeMap.keys, factory.typeMap.nodes, factory.typeMap.index;
      r := factory.CreateTypeModel(id);
      InternedGrows(k0, n0, i0, factory.typeMap.keys, factory.typeMap.nodes, id, NewType(), r);
    }

    /** The id `elementType.Id` reads off the node at `element`: the one it is stored under. */
    function ElementId(element: nat): (id: string)
      requires factory.Valid() && element < |factory.typeMap.nodes|
      reads factory.typeMap, factory.assemblyMap, factory.methodMap
      ensures id == factory.typeMap.keys[element]
    {
      factory.typeMap.nodes[element].id
    }

    /**
     * The decoder's walk over one type signature element, calling back into
     * this provider for each element bottom-up. `GetTypeFromSpecification`
     * and `GetFunctionPointerType` throw NotImplementedException,
     * `GetPrimitiveType` throws ArgumentOutOfRangeException for a code
     * outside its switch, and a nil handle's null id makes the factory throw
     * ArgumentNullException; the exception ends the walk.
     */
    method Decode(reader: MetadataReader, t: SignatureType) returns (r: Result<nat>)
      requires factory.Valid() && WellFormed(reader) && ValidSignature(reader, t)
      modifies factory.typeMap
      ensures factory.Valid() && Extends(old(factory.typeMap.keys), factory.typeMap.keys)
      ensures Grows(old(factory.typeMap.nodes), factory.typeMap.nodes, NewType())
      ensures r.Ok? <==> SignatureId(reader, t).Ok?
      ensures r.Ok? ==> r.value < |factory.typeMap.keys| && factory.typeMap.keys[r.value] == SignatureId(reader, t).value
      ensures r.Err? ==> SignatureId(reader, t) == Err(r.error)
      decreases t, 2
    {
      match t
      case Primitive(code) =>
        if PrimitiveId(code).Some? {
          r := Intern(PrimitiveId(code));
        } else {
          r := Err(ArgumentOutOfRange);
        }
      case TypeDefinitionElement(h) =>
        r := Intern(DefinitionHandleId(reader, h));
      case TypeReferenceElement(h) =>
        r := Intern(ReferenceHandleId(reader, h));
      case TypeSpecificationElement(_) =>
        r := Err(NotImplemented);
      case GenericInstantiation(_, _) =>
        r := DecodeGenericInstantiation(reader, t);
      case FunctionPointer(_, _) =>
        r := DecodeFunctionPointer(reader, t);
      case GenericTypeParameter(index) =>
        r := Intern(Some("!" + IntToString(index)));
      case GenericMethodParameter(index) =>
        r := Intern(Some("!!" + IntToString(index)));
      case Modified(_, _, _) =>
        r := DecodeModified(reader, t);
      case _ =>
        r := DecodeSuffixed(reader, t);
    }

    /**
     * SZARRAY, ARRAY, BYREF, PTR and PINNED: the element type, then
     * `GetSZArrayType` ("[]"), `GetArrayType` (the shape, rendered by the
     * StringBuilder loop), `GetByReferenceType` ("&"), `GetPointerType` ("*")
     * or `GetPinnedType` (" pinned") on the element's id.
     */
    method DecodeSuffixed(reader: MetadataReader, t: SignatureType) returns (r: Result<nat>)
      requires t.SZArray? || t.GeneralArray? || t.ByReference? || t.Pointer? || t.Pinned?
      requires factory.Valid() && WellFormed(reader) && ValidSignature(reader, t)
      modifies factory.typeMap
      ensures factory.Valid() && Extends(old(factory.typeMap.keys), factory.typeMap.keys)
      ensures Grows(old(factory.typeMap.nodes), factory.typeMap.nodes, NewType())
      ensures r.Ok? <==> SignatureId(reader, t).Ok?
      ensures r.Ok? ==> r.value < |factory.typeMap.keys| && factory.typeMap.keys[r.value] == SignatureId(reader, t).value
      ensures r.Err? ==> SignatureId(reader, t) == Err(r.error)
      decreases t, 1
    {
      ghost var k0, n0 := factory.typeMap.keys, factory.typeMap.nodes;
      var er := Decode(reader, t.element);
      if er.Err? { return er; }
      ghost var k1, n1 := factory.typeMap.keys, factory.typeMap.nodes;
      var elementId := ElementId(er.value);
      var id: string;
      match t {
        case SZArray(_) => id := elementId + "[]";
        case GeneralArray(_, shape) => id := AppendShape(elementId, shape);
        case ByReference(_) => id := elementId + "&";
        case Pointer(_) => id := elementId + "*";
        case Pinned(_) => id := elementId + " pinned";
      }
      r := Intern(Some(id));
      ExtendsTransitive(k0, k1, factory.typeMap.keys);
      GrowsTransitive(n0, n1, factory.typeMap.nodes, NewType());
    }

    /** GENERICINST: the generic type, then its arguments, then `GetGenericInstantiation`. */
    method DecodeGenericInstantiation(reader: MetadataReader, t: SignatureType) returns (r: Result<nat>)
      requires t.GenericInstantiation?
      requires factory.Valid() && WellFormed(reader) && ValidSignature(reader, t)
      modifies factory.typeMap
      ensures factory.Valid() && Extends(old(factory.typeMap.keys), factory.typeMap.keys)
      ensures Grows(old(factory.typeMap.nodes), factory.typeMap.nodes, NewType())
      ensures r.Ok? <==> SignatureId(reader, t).Ok?
      ensures r.Ok? ==> r.value < |factory.typeMap.keys| && factory.typeMap.keys[r.value] == SignatureId(reader, t).value
      ensures r.Err? ==> SignatureId(reader, t) == Err(r.error)
      decreases t, 1
    {
      ghost var k0, n0 := factory.typeMap.keys, factory.typeMap.nodes;
      var gr := Decode(reader, t.genericType);
      if gr.Err? { return gr; }
      ghost var k1, n1 := factory.typeMap.keys, factory.typeMap.nodes;
      var ar := DecodeAll(reader, t.arguments, t);
      ExtendsTransitive(k0, k1, factory.typeMap.keys);
      GrowsTransitive(n0, n1, factory.typeMap.nodes, NewType());
      if ar.Err? { return Err(ar.error); }
      ghost var k2, n2 := factory.typeMap.keys, factory.typeMap.nodes;
      ExtendsKeeps(k1, k2, gr.value);
      RefersToIdsAt(k2, ar.value, SignatureIds(reader, t.arguments, t).value);
      var argumentIds := IdsAt(factory.typeMap.keys, ar.value);
      r := Intern(Some(InstantiationId(ElementId(gr.value), argumentIds)));
      ExtendsTransitive(k0, k2, factory.typeMap.keys);
      GrowsTransitive(n0, n2, factory.typeMap.nodes, NewType());
    }

    /** FNPTR: the method signature is decoded, then `GetFunctionPointerType` throws. */
    method DecodeFunctionPointer(reader: MetadataReader, t: SignatureType) returns (r: Result<nat>)
      requires t.FunctionPointer?
      requires factory.Valid() && WellFormed(reader) && ValidSignature(reader, t)
      modifies factory.typeMap
      ensures factory.Valid() && Extends(old(factory.typeMap.keys), factory.typeMap.keys)
      ensures Grows(old(factory.typeMap.nodes), factory.typeMap.nodes, NewType())
      ensures r.Ok? <==> SignatureId(reader, t).Ok?
      ensures r.Ok? ==> r.value < |factory.typeMap.keys| && factory.typeMap.keys[r.value] == SignatureId(reader, t).value
      ensures r.Err? ==> SignatureId(reader, t) == Err(r.error)
      decreases t, 1
    {
      ghost var k0, n0 := factory.typeMap.keys, factory.typeMap.nodes;
      var rr := Decode(reader, t.returnType);
      if rr.Err? { return rr; }
      ghost var k1, n1 := factory.typeMap.keys, factory.typeMap.nodes;
      var pr := DecodeAll(reader, t.parameterTypes, t);
      ExtendsTransitive(k0, k1, factory.typeMap.keys);
      GrowsTransitive(n0, n1, factory.typeMap.nodes, NewType());
      if pr.Err? { return Err(pr.error); }
      r := Err(NotImplemented);
    }

    /** CMOD_REQD / CMOD_OPT: the modifier, then the modified type, then `GetModifiedType`. */
    method DecodeModified(reader: MetadataReader, t: SignatureType) returns (r: Result<nat>)
      requires t.Modified?
      requires factory.Valid() && WellFormed(reader) && ValidSignature(reader, t)
      modifies factory.typeMap
      ensures factory.Valid() && Extends(old(factory.typeMap.keys), factory.typeMap.keys)
      ensures Grows(old(factory.typeMap.nodes), factory.typeMap.nodes, NewType())
      ensures r.Ok? <==> SignatureId(reader, t).Ok?
      ensures r.Ok? ==> r.value < |factory.typeMap.keys| && factory.typeMap.keys[r.value] == SignatureId(reader, t).value
      ensures r.Err? ==> SignatureId(reader, t) == Err(r.error)
      decreases t, 1
    {
      ghost var k0, n0 := factory.typeMap.keys, factory.typeMap.nodes;
      var mr := Decode(reader, t.modifier);
      if mr.Err? { return mr; }
      ghost var k1, n1 := factory.typeMap.keys, factory.typeMap.nodes;
      var ur := Decode(reader, t.unmodified);
      ExtendsTransitive(k0, k1, factory.typeMap.keys);
      GrowsTransitive(n0, n1, factory.typeMap.nodes, NewType());
      if ur.Err? { return ur; }
      ghost var k2, n2 := factory.typeMap.keys, factory.typeMap.nodes;
      ExtendsKeeps(k1, k2, mr.value);
      r := Intern(Some(ElementId(mr.value) + " " + ElementId(ur.value)));
      ExtendsTransitive(k0, k2, factory.typeMap.keys);
      GrowsTransitive(n0, n2, factory.typeMap.nodes, NewType());
    }

    /** The decoder's loop over generic arguments or parameter types, left to right. */
    method DecodeAll(reader: MetadataReader, ts: seq<SignatureType>, ghost parent: SignatureType) returns (r: Result<seq<nat>>)
      requires factory.Valid() && WellFormed(reader) && Below(reader, ts, parent)
      modifies factory.typeMap
      ensures factory.Valid() && Extends(old(factory.typeMap.keys), factory.typeMap.keys)
      ensures Grows(old(factory.typeMap.nodes), factory.typeMap.nodes, NewType())
      ensures r.Ok? <==> SignatureIds(reader, ts, parent).Ok?
      ensures r.Ok? ==> RefersTo(factory.typeMap.keys, r.value, SignatureIds(reader, ts, parent).value)
      ensures r.Err? ==> SignatureIds(reader, ts, parent) == Err(r.error)
      decreases parent, 0
    {
      ghost var k0, n0 := factory.typeMap.keys, factory.typeMap.nodes;
      var positions: seq<nat> := [];
      ExtendsReflexive(k0);
      for j := 0 to |ts|
        invariant factory.Valid() && Extends(k0, factory.typeMap.keys)
        invariant Grows(n0, factory.typeMap.nodes, NewType())
        invariant Below(reader, ts[..j], parent)
        invariant SignatureIds(reader, ts[..j], parent).Ok?
        invariant RefersTo(factory.typeMap.keys, positions, SignatureIds(reader, ts[..j], parent).value)
      {
        SignatureIdsStep(reader, ts, parent, j);
        ghost var k1, n1 := factory.typeMap.keys, factory.typeMap.nodes;
        var e := Decode(reader, ts[j]);
        ExtendsTransitive(k0, k1, factory.typeMap.keys);
        GrowsTransitive(n0, n1, factory.typeMap.nodes, NewType());
        if e.Err? {
          SignatureIdsPrefixError(reader, ts, parent, j + 1);
          return Err(e.error);
        }
        RefersToSnoc(k1, factory.typeMap.keys, positions, SignatureIds(reader, ts[..j], parent).value, e.value);
        positions := positions + [e.value];
      }
      assert ts[..|ts|] == ts;
      r := Ok(positions);
    }
  }
}

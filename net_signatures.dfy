/**
 * Net.Scanner/SignatureTypeProvider.cs: the callbacks a signature decoder makes
 * for each element of a type signature (section 23.2.12 of ECMA-335 Partition
 * II), each answered with a type node interned under a `TypeKey`. The decoder's
 * walk over the blob is `Decode`, a recursion over `SignatureType`; what it
 * interns is specified by the pure `SignatureKey`.
 */
module NetSignatures {
  import opened Wrappers
  import opened Strings
  import opened Srm
  import opened NetTypeKeys
  import opened NetModel
  import opened NetMetadata
  import opened TypeKeyExtensions
  import opened NetModelFactory
  import opened ArrayShapes

  /**
   * The constructor's dictionary initializer, in its order: each primitive
   * type code and the runtime type whose `TypeKey.FromType` it is keyed by.
   * `TypedReference` is keyed after `System.Reflection.Metadata.TypeReference`,
   * the type the `TypeReference` identifier resolves to in that file.
   */
  const PrimitiveTable: seq<(int, RuntimeType)> := [
    (CodeBoolean, RuntimeType(Some("System"), "Boolean")),
    (CodeByte, RuntimeType(Some("System"), "Byte")),
    (CodeSByte, RuntimeType(Some("System"), "SByte")),
    (CodeChar, RuntimeType(Some("System"), "Char")),
    (CodeInt16, RuntimeType(Some("System"), "Int16")),
    (CodeUInt16, RuntimeType(Some("System"), "UInt16")),
    (CodeInt32, RuntimeType(Some("System"), "Int32")),
    (CodeUInt32, RuntimeType(Some("System"), "UInt32")),
    (CodeInt64, RuntimeType(Some("System"), "Int64")),
    (CodeUInt64, RuntimeType(Some("System"), "UInt64")),
    (CodeSingle, RuntimeType(Some("System"), "Single")),
    (CodeDouble, RuntimeType(Some("System"), "Double")),
    (CodeIntPtr, RuntimeType(Some("System"), "IntPtr")),
    (CodeUIntPtr, RuntimeType(Some("System"), "UIntPtr")),
    (CodeObject, RuntimeType(Some("System"), "Object")),
    (CodeString, RuntimeType(Some("System"), "String")),
    (CodeVoid, RuntimeType(Some("System"), "Void")),
    (CodeTypedReference, RuntimeType(Some("System.Reflection.Metadata"), "TypeReference"))
  ]

  /** The codes of a table, in order. */
  function Codes(table: seq<(int, RuntimeType)>): (cs: seq<int>)
    ensures |cs| == |table| && forall j :: 0 <= j < |table| ==> cs[j] == table[j].0
  {
    seq(|table|, j requires 0 <= j < |table| => table[j].0)
  }

  /** No code is listed twice (a duplicate would make the dictionary initializer throw). */
  predicate DistinctCodes(table: seq<(int, RuntimeType)>)
  {
    forall i, j :: 0 <= i < j < |table| ==> table[i].0 != table[j].0
  }

  /** The key of the entry listed for `code`, if any. */
  function Lookup(table: seq<(int, RuntimeType)>, code: int): (k: Option<TypeKey>)
    ensures k.Some? <==> code in Codes(table)
  {
    if |table| == 0 then None
    else if table[0].0 == code then Some(FromType(table[0].1))
    else
      assert Codes(table) == [table[0].0] + Codes(table[1..]);
      Lookup(table[1..], code)
  }

  /** In a table without duplicate codes, each entry is what its code looks up. */
  lemma {:induction false} LookupEntry(table: seq<(int, RuntimeType)>, j: nat)
    requires DistinctCodes(table) && j < |table|
    ensures Lookup(table, table[j].0) == Some(FromType(table[j].1))
  {
    if j > 0 {
      assert table[0].0 != table[j].0;
      assert table[1..][j - 1] == table[j];
      LookupEntry(table[1..], j - 1);
    }
  }

  lemma PrimitiveTableDistinct()
    ensures DistinctCodes(PrimitiveTable)
  {
  }

  /** The key the dictionary's node for `code` is interned under, if `code` is in it. */
  function PrimitiveKey(code: int): (k: Option<TypeKey>)
  {
    Lookup(PrimitiveTable, code)
  }

  /** `bool` maps to ("System", "Boolean"), `int` to ("System", "Int32") and `void` to ("System", "Void"). */
  lemma PrimitiveKeysByName()
    ensures PrimitiveKey(CodeBoolean) == Some(TypeKey(Some("System"), Some("Boolean")))
    ensures PrimitiveKey(CodeInt32) == Some(TypeKey(Some("System"), Some("Int32")))
    ensures PrimitiveKey(CodeVoid) == Some(TypeKey(Some("System"), Some("Void")))
    ensures PrimitiveKey(CodeTypedReference) == Some(TypeKey(Some("System.Reflection.Metadata"), Some("TypeReference")))
  {
    PrimitiveTableDistinct();
    LookupEntry(PrimitiveTable, 0);
    LookupEntry(PrimitiveTable, 6);
    LookupEntry(PrimitiveTable, 16);
    LookupEntry(PrimitiveTable, 17);
  }

  /** Element type codes outside the table, such as 0 or `GenericInst` (0x15), have no node. */
  lemma UnknownCodesHaveNoKey()
    ensures PrimitiveKey(0x00).None? && PrimitiveKey(0x15).None?
  {
    assert 0x00 !in Codes(PrimitiveTable);
    assert 0x15 !in Codes(PrimitiveTable);
  }

  /** "!i" and "!!i": positional generic parameters in the empty namespace. */
  function TypeParameterKey(index: int): (k: TypeKey)
  {
    TypeKey(Some(""), Some("!" + IntToString(index)))
  }

  function MethodTypeParameterKey(index: int): (k: TypeKey)
  {
    TypeKey(Some(""), Some("!!" + IntToString(index)))
  }

  /** The general-array key: the element's namespace, its name followed by the shape. */
  function GeneralArrayKey(element: TypeKey, shape: ArrayShape): (k: TypeKey)
  {
    TypeKey(element.namespace, Some(Text(element.name) + ShapeSuffix(shape)))
  }

  /**
   * The key `Decode` interns for a signature element, or the exception the
   * first failing callback throws, in the decoder's order: a generic type
   * before its arguments, a modifier before the type it modifies, and a
   * function pointer's signature before the callback that refuses it.
   */
  function SignatureKey(reader: MetadataReader, t: SignatureType): (r: Result<TypeKey>)
    requires WellFormed(reader) && ValidSignature(reader, t)
    decreases t
  {
    match t
    case Primitive(code) =>
      if PrimitiveKey(code).Some? then Ok(PrimitiveKey(code).value) else Err(ArgumentOutOfRange)
    case TypeDefinitionElement(h) => Ok(DefinitionHandleKey(reader, h))
    case TypeReferenceElement(h) => Ok(ReferenceHandleKey(reader, h))
    case TypeSpecificationElement(_) => Err(NotImplemented)
    case SZArray(e) =>
      var k := SignatureKey(reader, e);
      if k.Err? then k else Ok(ToArrayType(k.value))
    case GeneralArray(e, shape) =>
      var k := SignatureKey(reader, e);
      if k.Err? then k else Ok(GeneralArrayKey(k.value, shape))
    case GenericInstantiation(g, args) =>
      var k := SignatureKey(reader, g);
      if k.Err? then k
      else
        var ks := SignatureKeys(reader, args, t);
        if ks.Err? then Err(ks.error) else Ok(ToGenericType(k.value, ks.value))
    case ByReference(e) =>
      var k := SignatureKey(reader, e);
      if k.Err? then k else Ok(ToReferenceType(k.value))
    case Pointer(e) =>
      var k := SignatureKey(reader, e);
      if k.Err? then k else Ok(ToPointerType(k.value))
    case FunctionPointer(ret, ps) =>
      var k := SignatureKey(reader, ret);
      if k.Err? then k
      else
        var ks := SignatureKeys(reader, ps, t);
        if ks.Err? then Err(ks.error) else Err(NotImplemented)
    case GenericTypeParameter(index) => Ok(TypeParameterKey(index))
    case GenericMethodParameter(index) => Ok(MethodTypeParameterKey(index))
    case Modified(m, u, _) =>
      var mk := SignatureKey(reader, m);
      if mk.Err? then mk
      else
        var uk := SignatureKey(reader, u);
        if uk.Err? then uk else Ok(ToModifiedType(uk.value, mk.value))
    case Pinned(e) =>
      var k := SignatureKey(reader, e);
      if k.Err? then k else Ok(ToPinnedType(k.value))
  }

  /** The keys of a list of elements decoded left to right, or the first failure. */
  function SignatureKeys(reader: MetadataReader, ts: seq<SignatureType>, ghost parent: SignatureType): (r: Result<seq<TypeKey>>)
    requires WellFormed(reader) && Below(reader, ts, parent)
    ensures r.Ok? ==> |r.value| == |ts|
    decreases parent, |ts|
  {
    if |ts| == 0 then Ok([])
    else
      assert forall a :: a in ts[..|ts| - 1] ==> a in ts;
      var init := SignatureKeys(reader, ts[..|ts| - 1], parent);
      if init.Err? then init
      else
        assert ts[|ts| - 1] in ts;
        var last := SignatureKey(reader, ts[|ts| - 1]);
        if last.Err? then Err(last.error) else Ok(init.value + [last.value])
  }

  /** Type specifications and function pointers are never decoded. */
  lemma UnsupportedElementsFail(reader: MetadataReader, t: SignatureType)
    requires WellFormed(reader) && ValidSignature(reader, t)
    requires t.TypeSpecificationElement? || t.FunctionPointer?
    ensures SignatureKey(reader, t).Err?
  {
  }

  /** An SZ array of E is keyed (E.Namespace, E.Name + "[]"). */
  lemma SZArrayKey(reader: MetadataReader, e: SignatureType)
    requires WellFormed(reader) && ValidSignature(reader, e) && SignatureKey(reader, e).Ok?
    ensures var k := SignatureKey(reader, e).value;
      SignatureKey(reader, SZArray(e)) == Ok(TypeKey(k.namespace, Some(Text(k.name) + "[]")))
  {
  }

  /** A one-dimensional general array never shares the key of the SZ array of the same element. */
  lemma GeneralArrayIsNotSZArray(k: TypeKey, shape: ArrayShape)
    requires shape.rank >= 1
    ensures GeneralArrayKey(k, shape) != ToArrayType(k)
  {
    GeneralArrayIsNotVector(shape);
    var n := Text(k.name);
    assert (n + ShapeSuffix(shape))[|n|..] == ShapeSuffix(shape);
    assert (n + "[]")[|n|..] == "[]";
  }

  /** "!i" never equals "!!j", and each of the two forms tells its indices apart. */
  lemma GenericParameterKeysDistinct(i: int, j: int)
    ensures TypeParameterKey(i) != MethodTypeParameterKey(j)
    ensures TypeParameterKey(i) == TypeParameterKey(j) ==> i == j
    ensures MethodTypeParameterKey(i) == MethodTypeParameterKey(j) ==> i == j
  {
    var si, sj := IntToString(i), IntToString(j);
    assert si[0] == '-' || '0' <= si[0] <= '9';
    assert ("!" + si)[1] == si[0] && ("!!" + sj)[1] == '!';
    if TypeParameterKey(i) == TypeParameterKey(j) {
      assert si == ("!" + si)[1..] && sj == ("!" + sj)[1..];
      IntToStringInjective(i, j);
    }
    if MethodTypeParameterKey(i) == MethodTypeParameterKey(j) {
      assert si == ("!!" + si)[2..] && sj == ("!!" + sj)[2..];
      IntToStringInjective(i, j);
    }
  }

  /** A code listed once is not among the codes listed before it. */
  lemma NewCode(table: seq<(int, RuntimeType)>, j: nat)
    requires DistinctCodes(table) && j < |table|
    ensures table[j].0 !in Codes(table)[..j]
  {
    var codes := Codes(table);
    forall k | 0 <= k < j
      ensures codes[..j][k] != table[j].0
    {
      assert codes[..j][k] == table[k].0;
    }
  }

  /** `CreateTypeModel`, seen only through what the provider relies on: the key lands at the returned position and nothing else moves. */
  method InternType(factory: ModelFactory, key: TypeKey) returns (i: nat)
    requires factory.TypesValid()
    modifies factory.typeMap
    ensures factory.TypesValid() && Extends(old(factory.typeMap.keys), factory.typeMap.keys)
    ensures i < |factory.typeMap.keys| && factory.typeMap.keys[i] == key
  {
    i := factory.CreateTypeModel(key);
  }

  /** One entry of the dictionary initializer: intern the `j`-th runtime type and record it under its code. */
  method CreateNextPrimitiveType(factory: ModelFactory, table: seq<(int, RuntimeType)>, j: nat, m: map<int, nat>,
                                 ghost k0: seq<TypeKey>) returns (m': map<int, nat>)
    requires factory.TypesValid() && DistinctCodes(table) && j < |table|
    requires Extends(k0, factory.typeMap.keys)
    requires forall c :: c in m <==> c in Codes(table)[..j]
    requires forall c :: c in m ==> m[c] < |factory.typeMap.keys| && Lookup(table, c) == Some(factory.typeMap.keys[m[c]])
    modifies factory.typeMap
    ensures factory.TypesValid() && Extends(k0, factory.typeMap.keys)
    ensures forall c :: c in m' <==> c in Codes(table)[..j + 1]
    ensures forall c :: c in m' ==> m'[c] < |factory.typeMap.keys| && Lookup(table, c) == Some(factory.typeMap.keys[m'[c]])
  {
    ghost var codes := Codes(table);
    ghost var k1 := factory.typeMap.keys;
    var i := InternType(factory, FromType(table[j].1));
    forall c | c in m
      ensures m[c] < |factory.typeMap.keys| && factory.typeMap.keys[m[c]] == k1[m[c]]
    {
      ExtendsKeeps(k1, factory.typeMap.keys, m[c]);
    }
    ExtendsTransitive(k0, k1, factory.typeMap.keys);
    LookupEntry(table, j);
    NewCode(table, j);
    assert codes[..j + 1] == codes[..j] + [table[j].0];
    m' := m[table[j].0 := i];
  }

  /**
   * The dictionary initializer of the provider's constructor: one
   * `CreateTypeModel` per entry, in the table's order.
   */
  method CreatePrimitiveTypes(factory: ModelFactory, table: seq<(int, RuntimeType)>) returns (m: map<int, nat>)
    requires factory.TypesValid() && DistinctCodes(table)
    modifies factory.typeMap
    ensures factory.TypesValid() && Extends(old(factory.typeMap.keys), factory.typeMap.keys)
    ensures forall c :: c in m <==> c in Codes(table)
    ensures forall c :: c in m ==> m[c] < |factory.typeMap.keys| && Lookup(table, c) == Some(factory.typeMap.keys[m[c]])
  {
    m := map[];
    ghost var k0 := factory.typeMap.keys;
    ghost var codes := Codes(table);
    for j := 0 to |table|
      invariant factory.TypesValid() && Extends(k0, factory.typeMap.keys)
      invariant forall c :: c in m <==> c in codes[..j]
      invariant forall c :: c in m ==> m[c] < |factory.typeMap.keys| && Lookup(table, c) == Some(factory.typeMap.keys[m[c]])
    {
      m := CreateNextPrimitiveType(factory, table, j, m, k0);
    }
    assert codes[..|table|] == codes;
  }

  /**
   * The provider: the factory it interns into and the primitive-type
   * dictionary its constructor fills, from type code to the position of the
   * node interned for it.
   */
  class SignatureTypeProvider {
    const factory: ModelFactory
    const primitiveTypes: map<int, nat>

    /** Every dictionary entry refers to the node interned under the code's key. */
    ghost predicate PrimitivesInterned(keys: seq<TypeKey>)
    {
      && (forall c :: c in primitiveTypes <==> PrimitiveKey(c).Some?)
      && forall c :: c in primitiveTypes ==>
           primitiveTypes[c] < |keys| && PrimitiveKey(c) == Some(keys[primitiveTypes[c]])
    }

    ghost predicate Valid()
      reads factory.typeMap
    {
      factory.TypesValid() && PrimitivesInterned(factory.typeMap.keys)
    }

    lemma PrimitivesKept(keys0: seq<TypeKey>, keys1: seq<TypeKey>)
      requires PrimitivesInterned(keys0) && Extends(keys0, keys1)
      ensures PrimitivesInterned(keys1)
    {
      forall c | c in primitiveTypes
        ensures keys1[primitiveTypes[c]] == keys0[primitiveTypes[c]]
      {
        assert keys1[..|keys0|][primitiveTypes[c]] == keys0[primitiveTypes[c]];
      }
    }

    /** The constructor interns one node per primitive type code, in the table's order. */
    constructor (factory: ModelFactory)
      requires factory.TypesValid()
      modifies factory.typeMap
      ensures this.factory == factory && Valid()
      ensures Extends(old(factory.typeMap.keys), factory.typeMap.keys)
    {
      PrimitiveTableDistinct();
      var m := CreatePrimitiveTypes(factory, PrimitiveTable);
      this.factory := factory;
      primitiveTypes := m;
    }

    /** `GetPrimitiveType`: the dictionary's node, the same on every call; an unknown code throws. */
    function GetPrimitiveType(code: int): (r: Result<nat>)
      requires Valid()
      reads factory.typeMap
      ensures r.Ok? <==> PrimitiveKey(code).Some?
      ensures r.Ok? ==> r.value < |factory.typeMap.keys| && factory.typeMap.keys[r.value] == PrimitiveKey(code).value
      ensures r.Err? ==> r.error == ArgumentOutOfRange
    {
      if code in primitiveTypes then Ok(primitiveTypes[code]) else Err(ArgumentOutOfRange)
    }

    /** The shared tail of every callback: intern `key`. */
    method Intern(key: TypeKey) returns (i: nat)
      requires Valid()
      modifies factory.typeMap
      ensures Valid() && Extends(old(factory.typeMap.keys), factory.typeMap.keys)
      ensures i < |factory.typeMap.keys| && factory.typeMap.keys[i] == key
    {
      ghost var k0 := factory.typeMap.keys;
      i := InternType(factory, key);
      PrimitivesKept(k0, factory.typeMap.keys);
    }

    /** `GetTypeFromDefinition`: the definition's key, Undefined for the nil handle. */
    method GetTypeFromDefinition(reader: MetadataReader, handle: TypeDefinitionHandle) returns (i: nat)
      requires Valid() && WellFormed(reader) && ValidDefinition(reader, handle)
      modifies factory.typeMap
      ensures Valid() && Extends(old(factory.typeMap.keys), factory.typeMap.keys)
      ensures i < |factory.typeMap.keys| && factory.typeMap.keys[i] == DefinitionHandleKey(reader, handle)
    {
      i := Intern(DefinitionHandleKey(reader, handle));
    }

    /** `GetTypeFromReference`: the reference's key, Undefined for the nil handle. */
    method GetTypeFromReference(reader: MetadataReader, handle: TypeReferenceHandle) returns (i: nat)
      requires Valid() && WellFormed(reader) && ValidReference(reader, handle)
      modifies factory.typeMap
      ensures Valid() && Extends(old(factory.typeMap.keys), factory.typeMap.keys)
      ensures i < |factory.typeMap.keys| && factory.typeMap.keys[i] == ReferenceHandleKey(reader, handle)
    {
      i := Intern(ReferenceHandleKey(reader, handle));
    }

    /** The key `GetKey` reads off the node at `element`: the one it is interned under. */
    function ElementKey(element: nat): (k: TypeKey)
      requires Valid() && element < |factory.typeMap.nodes|
      reads factory.typeMap
      ensures k == factory.typeMap.keys[element]
    {
      GetKey(factory.typeMap.nodes[element].data)
    }

    /** `GetSZArrayType`. */
    method GetSZArrayType(element: nat) returns (i: nat)
      requires Valid() && element < |factory.typeMap.nodes|
      modifies factory.typeMap
      ensures Valid() && Extends(old(factory.typeMap.keys), factory.typeMap.keys)
      ensures i < |factory.typeMap.keys| && factory.typeMap.keys[i] == ToArrayType(old(factory.typeMap.keys[element]))
    {
      i := Intern(ToArrayType(ElementKey(element)));
    }

    /** `GetGenericInstantiation`: the generic type's key with the argument keys, in order. */
    method GetGenericInstantiation(genericType: nat, typeArguments: seq<nat>) returns (i: nat)
      requires Valid() && genericType < |factory.typeMap.nodes|
      requires forall j :: 0 <= j < |typeArguments| ==> typeArguments[j] < |factory.typeMap.nodes|
      modifies factory.typeMap
      ensures Valid() && Extends(old(factory.typeMap.keys), factory.typeMap.keys)
      ensures i < |factory.typeMap.keys|
      ensures factory.typeMap.keys[i] == ToGenericType(old(factory.typeMap.keys[genericType]), KeysAt(old(factory.typeMap.keys), typeArguments))
    {
      var nodes := factory.typeMap.nodes;
      var argumentKeys := seq(|typeArguments|, j requires 0 <= j < |typeArguments| => GetKey(nodes[typeArguments[j]].data));
      assert argumentKeys == KeysAt(factory.typeMap.keys, typeArguments);
      i := Intern(ToGenericType(ElementKey(genericType), argumentKeys));
    }

    /** `GetArrayType`: the StringBuilder loop renders the shape after the element's name. */
    method GetArrayType(element: nat, shape: ArrayShape) returns (i: nat)
      requires Valid() && element < |factory.typeMap.nodes|
      modifies factory.typeMap
      ensures Valid() && Extends(old(factory.typeMap.keys), factory.typeMap.keys)
      ensures i < |factory.typeMap.keys| && factory.typeMap.keys[i] == GeneralArrayKey(old(factory.typeMap.keys[element]), shape)
    {
      var elementTypeKey := ElementKey(element);
      var name := AppendShape(Text(elementTypeKey.name), shape);
      i := Intern(TypeKey(factory.typeMap.nodes[element].data.namespace, Some(name)));
    }

    /** `GetByReferenceType`. */
    method GetByReferenceType(element: nat) returns (i: nat)
      requires Valid() && element < |factory.typeMap.nodes|
      modifies factory.typeMap
      ensures Valid() && Extends(old(factory.typeMap.keys), factory.typeMap.keys)
      ensures i < |factory.typeMap.keys| && factory.typeMap.keys[i] == ToReferenceType(old(factory.typeMap.keys[element]))
    {
      i := Intern(ToReferenceType(ElementKey(element)));
    }

    /** `GetPointerType`. */
    method GetPointerType(element: nat) returns (i: nat)
      requires Valid() && element < |factory.typeMap.nodes|
      modifies factory.typeMap
      ensures Valid() && Extends(old(factory.typeMap.keys), factory.typeMap.keys)
      ensures i < |factory.typeMap.keys| && factory.typeMap.keys[i] == ToPointerType(old(factory.typeMap.keys[element]))
    {
      i := Intern(ToPointerType(ElementKey(element)));
    }

    /** `GetGenericMethodParameter`: "!!index", whatever the generic context. */
    method GetGenericMethodParameter(index: int) returns (i: nat)
      requires Valid()
      modifies factory.typeMap
      ensures Valid() && Extends(old(factory.typeMap.keys), factory.typeMap.keys)
      ensures i < |factory.typeMap.keys| && factory.typeMap.keys[i] == MethodTypeParameterKey(index)
    {
      i := Intern(TypeKey(Some(""), Some("!!" + IntToString(index))));
    }

    /** `GetGenericTypeParameter`: "!index", whatever the generic context. */
    method GetGenericTypeParameter(index: int) returns (i: nat)
      requires Valid()
      modifies factory.typeMap
      ensures Valid() && Extends(old(factory.typeMap.keys), factory.typeMap.keys)
      ensures i < |factory.typeMap.keys| && factory.typeMap.keys[i] == TypeParameterKey(index)
    {
      i := Intern(TypeKey(Some(""), Some("!" + IntToString(index))));
    }

    /** `GetModifiedType`: `isRequired` does not enter the key. */
    method GetModifiedType(modifier: nat, unmodifiedType: nat, isRequired: bool) returns (i: nat)
      requires Valid() && modifier < |factory.typeMap.nodes| && unmodifiedType < |factory.typeMap.nodes|
      modifies factory.typeMap
      ensures Valid() && Extends(old(factory.typeMap.keys), factory.typeMap.keys)
      ensures i < |factory.typeMap.keys|
      ensures factory.typeMap.keys[i] == ToModifiedType(old(factory.typeMap.keys[unmodifiedType]), old(factory.typeMap.keys[modifier]))
    {
      i := Intern(ToModifiedType(ElementKey(unmodifiedType), ElementKey(modifier)));
    }

    /** `GetPinnedType`. */
    method GetPinnedType(element: nat) returns (i: nat)
      requires Valid() && element < |factory.typeMap.nodes|
      modifies factory.typeMap
      ensures Valid() && Extends(old(factory.typeMap.keys), factory.typeMap.keys)
      ensures i < |factory.typeMap.keys| && factory.typeMap.keys[i] == ToPinnedType(old(factory.typeMap.keys[element]))
    {
      i := Intern(ToPinnedType(ElementKey(element)));
    }

    /**
     * The decoder's walk over one type signature element, calling back into
     * this provider for each element bottom-up. `GetTypeFromSpecification`
     * and `GetFunctionPointerType` throw NotImplementedException, and
     * `GetPrimitiveType` throws ArgumentOutOfRangeException for a code
     * outside its dictionary; the exception ends the walk.
     */
    method Decode(reader: MetadataReader, t: SignatureType) returns (r: Result<nat>)
      requires Valid() && WellFormed(reader) && ValidSignature(reader, t)
      modifies factory.typeMap
      ensures Valid() && Extends(old(factory.typeMap.keys), factory.typeMap.keys)
      ensures r.Ok? <==> SignatureKey(reader, t).Ok?
      ensures r.Ok? ==> r.value < |factory.typeMap.keys| && factory.typeMap.keys[r.value] == SignatureKey(reader, t).value
      ensures r.Err? ==> SignatureKey(reader, t) == Err(r.error)
      decreases t, 3
    {
      match t
      case Primitive(code) =>
        r := GetPrimitiveType(code);
      case TypeDefinitionElement(h) =>
        var i := GetTypeFromDefinition(reader, h);
        r := Ok(i);
      case TypeReferenceElement(h) =>
        var i := GetTypeFromReference(reader, h);
        r := Ok(i);
      case TypeSpecificationElement(_) =>
        r := Err(NotImplemented);
      case SZArray(_) =>
        r := DecodeSZArray(reader, t);
      case GeneralArray(_, _) =>
        r := DecodeArray(reader, t);
      case GenericInstantiation(_, _) =>
        r := DecodeGenericInstantiation(reader, t);
      case ByReference(_) =>
        r := DecodeByReference(reader, t);
      case Pointer(_) =>
        r := DecodePointer(reader, t);
      case FunctionPointer(_, _) =>
        r := DecodeFunctionPointer(reader, t);
      case GenericTypeParameter(index) =>
        var i := GetGenericTypeParameter(index);
        r := Ok(i);
      case GenericMethodParameter(index) =>
        var i := GetGenericMethodParameter(index);
        r := Ok(i);
      case Modified(_, _, _) =>
        r := DecodeModified(reader, t);
      case Pinned(_) =>
        r := DecodePinned(reader, t);
    }

    /** SZARRAY: the element type, then `GetSZArrayType`. */
    method DecodeSZArray(reader: MetadataReader, t: SignatureType) returns (r: Result<nat>)
      requires t.SZArray?
      requires Valid() && WellFormed(reader) && ValidSignature(reader, t)
      modifies factory.typeMap
      ensures Valid() && Extends(old(factory.typeMap.keys), factory.typeMap.keys)
      ensures r.Ok? <==> SignatureKey(reader, t).Ok?
      ensures r.Ok? ==> r.value < |factory.typeMap.keys| && factory.typeMap.keys[r.value] == SignatureKey(reader, t).value
      ensures r.Err? ==> SignatureKey(reader, t) == Err(r.error)
      decreases t, 2
    {
      ghost var k0 := factory.typeMap.keys;
      var er := Decode(reader, t.element);
      if er.Err? { return er; }
      ghost var k1 := factory.typeMap.keys;
      var i := GetSZArrayType(er.value);
      ExtendsTransitive(k0, k1, factory.typeMap.keys);
      r := Ok(i);
    }

    /** ARRAY: the element type, then `GetArrayType` with the shape. */
    method DecodeArray(reader: MetadataReader, t: SignatureType) returns (r: Result<nat>)
      requires t.GeneralArray?
      requires Valid() && WellFormed(reader) && ValidSignature(reader, t)
      modifies factory.typeMap
      ensures Valid() && Extends(old(factory.typeMap.keys), factory.typeMap.keys)
      ensures r.Ok? <==> SignatureKey(reader, t).Ok?
      ensures r.Ok? ==> r.value < |factory.typeMap.keys| && factory.typeMap.keys[r.value] == SignatureKey(reader, t).value
      ensures r.Err? ==> SignatureKey(reader, t) == Err(r.error)
      decreases t, 2
    {
      ghost var k0 := factory.typeMap.keys;
      var er := Decode(reader, t.element);
      if er.Err? { return er; }
      ghost var k1 := factory.typeMap.keys;
      var i := GetArrayType(er.value, t.shape);
      ExtendsTransitive(k0, k1, factory.typeMap.keys);
      r := Ok(i);
    }

    /** BYREF: the element type, then `GetByReferenceType`. */
    method DecodeByReference(reader: MetadataReader, t: SignatureType) returns (r: Result<nat>)
      requires t.ByReference?
      requires Valid() && WellFormed(reader) && ValidSignature(reader, t)
      modifies factory.typeMap
      ensures Valid() && Extends(old(factory.typeMap.keys), factory.typeMap.keys)
      ensures r.Ok? <==> SignatureKey(reader, t).Ok?
      ensures r.Ok? ==> r.value < |factory.typeMap.keys| && factory.typeMap.keys[r.value] == SignatureKey(reader, t).value
      ensures r.Err? ==> SignatureKey(reader, t) == Err(r.error)
      decreases t, 2
    {
      ghost var k0 := factory.typeMap.keys;
      var er := Decode(reader, t.element);
      if er.Err? { return er; }
      ghost var k1 := factory.typeMap.keys;
      var i := GetByReferenceType(er.value);
      ExtendsTransitive(k0, k1, factory.typeMap.keys);
      r := Ok(i);
    }

    /** PTR: the element type, then `GetPointerType`. */
    method DecodePointer(reader: MetadataReader, t: SignatureType) returns (r: Result<nat>)
      requires t.Pointer?
      requires Valid() && WellFormed(reader) && ValidSignature(reader, t)
      modifies factory.typeMap
      ensures Valid() && Extends(old(factory.typeMap.keys), factory.typeMap.keys)
      ensures r.Ok? <==> SignatureKey(reader, t).Ok?
      ensures r.Ok? ==> r.value < |factory.typeMap.keys| && factory.typeMap.keys[r.value] == SignatureKey(reader, t).value
      ensures r.Err? ==> SignatureKey(reader, t) == Err(r.error)
      decreases t, 2
    {
      ghost var k0 := factory.typeMap.keys;
      var er := Decode(reader, t.element);
      if er.Err? { return er; }
      ghost var k1 := factory.typeMap.keys;
      var i := GetPointerType(er.value);
      ExtendsTransitive(k0, k1, factory.typeMap.keys);
      r := Ok(i);
    }

    /** PINNED: the element type, then `GetPinnedType`. */
    method DecodePinned(reader: MetadataReader, t: SignatureType) returns (r: Result<nat>)
      requires t.Pinned?
      requires Valid() && WellFormed(reader) && ValidSignature(reader, t)
      modifies factory.typeMap
      ensures Valid() && Extends(old(factory.typeMap.keys), factory.typeMap.keys)
      ensures r.Ok? <==> SignatureKey(reader, t).Ok?
      ensures r.Ok? ==> r.value < |factory.typeMap.keys| && factory.typeMap.keys[r.value] == SignatureKey(reader, t).value
      ensures r.Err? ==> SignatureKey(reader, t) == Err(r.error)
      decreases t, 2
    {
      ghost var k0 := factory.typeMap.keys;
      var er := Decode(reader, t.element);
      if er.Err? { return er; }
      ghost var k1 := factory.typeMap.keys;
      var i := GetPinnedType(er.value);
      ExtendsTransitive(k0, k1, factory.typeMap.keys);
      r := Ok(i);
    }

    /** GENERICINST: the generic type, then its arguments, then `GetGenericInstantiation`. */
    method DecodeGenericInstantiation(reader: MetadataReader, t: SignatureType) returns (r: Result<nat>)
      requires t.GenericInstantiation?
      requires Valid() && WellFormed(reader) && ValidSignature(reader, t)
      modifies factory.typeMap
      ensures Valid() && Extends(old(factory.typeMap.keys), factory.typeMap.keys)
      ensures r.Ok? <==> SignatureKey(reader, t).Ok?
      ensures r.Ok? ==> r.value < |factory.typeMap.keys| && factory.typeMap.keys[r.value] == SignatureKey(reader, t).value
      ensures r.Err? ==> SignatureKey(reader, t) == Err(r.error)
      decreases t, 2
    {
      ghost var k0 := factory.typeMap.keys;
      var gr := Decode(reader, t.genericType);
      if gr.Err? { return gr; }
      ghost var k1 := factory.typeMap.keys;
      var ar := DecodeAll(reader, t.arguments, t);
      ExtendsTransitive(k0, k1, factory.typeMap.keys);
      if ar.Err? { return Err(ar.error); }
      ghost var k2 := factory.typeMap.keys;
      assert k2[gr.value] == k1[gr.value] by {
        assert k2[..|k1|][gr.value] == k1[gr.value];
      }
      RefersToKeysAt(k2, ar.value, SignatureKeys(reader, t.arguments, t).value);
      var i := GetGenericInstantiation(gr.value, ar.value);
      ExtendsTransitive(k0, k2, factory.typeMap.keys);
      r := Ok(i);
    }

    /** FNPTR: the method signature is decoded, then `GetFunctionPointerType` throws. */
    method DecodeFunctionPointer(reader: MetadataReader, t: SignatureType) returns (r: Result<nat>)
      requires t.FunctionPointer?
      requires Valid() && WellFormed(reader) && ValidSignature(reader, t)
      modifies factory.typeMap
      ensures Valid() && Extends(old(factory.typeMap.keys), factory.typeMap.keys)
      ensures r.Ok? <==> SignatureKey(reader, t).Ok?
      ensures r.Ok? ==> r.value < |factory.typeMap.keys| && factory.typeMap.keys[r.value] == SignatureKey(reader, t).value
      ensures r.Err? ==> SignatureKey(reader, t) == Err(r.error)
      decreases t, 2
    {
      ghost var k0 := factory.typeMap.keys;
      var rr := Decode(reader, t.returnType);
      if rr.Err? { return rr; }
      ghost var k1 := factory.typeMap.keys;
      var pr := DecodeAll(reader, t.parameterTypes, t);
      ExtendsTransitive(k0, k1, factory.typeMap.keys);
      if pr.Err? { return Err(pr.error); }
      r := Err(NotImplemented);
    }

    /** CMOD_REQD / CMOD_OPT: the modifier, then the modified type, then `GetModifiedType`. */
    method DecodeModified(reader: MetadataReader, t: SignatureType) returns (r: Result<nat>)
      requires t.Modified?
      requires Valid() && WellFormed(reader) && ValidSignature(reader, t)
      modifies factory.typeMap
      ensures Valid() && Extends(old(factory.typeMap.keys), factory.typeMap.keys)
      ensures r.Ok? <==> SignatureKey(reader, t).Ok?
      ensures r.Ok? ==> r.value < |factory.typeMap.keys| && factory.typeMap.keys[r.value] == SignatureKey(reader, t).value
      ensures r.Err? ==> SignatureKey(reader, t) == Err(r.error)
      decreases t, 2
    {
      ghost var k0 := factory.typeMap.keys;
      var mr := Decode(reader, t.modifier);
      if mr.Err? { return mr; }
      ghost var k1 := factory.typeMap.keys;
      var ur := Decode(reader, t.unmodified);
      ExtendsTransitive(k0, k1, factory.typeMap.keys);
      if ur.Err? { return ur; }
      ghost var k2 := factory.typeMap.keys;
      assert k2[mr.value] == k1[mr.value] by {
        assert k2[..|k1|][mr.value] == k1[mr.value];
      }
      var i := GetModifiedType(mr.value, ur.value, t.isRequired);
      ExtendsTransitive(k0, k2, factory.typeMap.keys);
      r := Ok(i);
    }

    /** One turn of `DecodeAll`: decode the `j`-th element after the first `j` have decoded to `positions`. */
    method DecodeNext(reader: MetadataReader, ts: seq<SignatureType>, ghost parent: SignatureType, j: nat,
                      positions: seq<nat>, ghost k0: seq<TypeKey>) returns (e: Result<nat>)
      requires Valid() && WellFormed(reader) && Below(reader, ts, parent) && j < |ts|
      requires Extends(k0, factory.typeMap.keys) && Below(reader, ts[..j], parent)
      requires SignatureKeys(reader, ts[..j], parent).Ok?
      requires RefersTo(factory.typeMap.keys, positions, SignatureKeys(reader, ts[..j], parent).value)
      modifies factory.typeMap
      ensures Valid() && Extends(k0, factory.typeMap.keys) && Below(reader, ts[..j + 1], parent)
      ensures e.Err? ==> SignatureKeys(reader, ts, parent) == Err(e.error)
      ensures e.Ok? ==>
        && SignatureKeys(reader, ts[..j + 1], parent).Ok?
        && RefersTo(factory.typeMap.keys, positions + [e.value], SignatureKeys(reader, ts[..j + 1], parent).value)
      decreases parent, 0
    {
      SignatureKeysStep(reader, ts, parent, j);
      ghost var k1 := factory.typeMap.keys;
      e := Decode(reader, ts[j]);
      ExtendsTransitive(k0, k1, factory.typeMap.keys);
      if e.Err? {
        SignatureKeysPrefixError(reader, ts, parent, j + 1);
        return;
      }
      RefersToSnoc(k1, factory.typeMap.keys, positions, SignatureKeys(reader, ts[..j], parent).value, e.value);
    }

    /** The decoder's loop over generic arguments or parameter types, left to right. */
    method DecodeAll(reader: MetadataReader, ts: seq<SignatureType>, ghost parent: SignatureType) returns (r: Result<seq<nat>>)
      requires Valid() && WellFormed(reader) && Below(reader, ts, parent)
      modifies factory.typeMap
      ensures Valid() && Extends(old(factory.typeMap.keys), factory.typeMap.keys)
      ensures r.Ok? <==> SignatureKeys(reader, ts, parent).Ok?
      ensures r.Ok? ==> RefersTo(factory.typeMap.keys, r.value, SignatureKeys(reader, ts, parent).value)
      ensures r.Err? ==> SignatureKeys(reader, ts, parent) == Err(r.error)
      decreases parent, 1
    {
      ghost var k0 := factory.typeMap.keys;
      var positions: seq<nat> := [];
      for j := 0 to |ts|
        invariant Valid() && Extends(k0, factory.typeMap.keys)
        invariant Below(reader, ts[..j], parent)
        invariant SignatureKeys(reader, ts[..j], parent).Ok?
        invariant RefersTo(factory.typeMap.keys, positions, SignatureKeys(reader, ts[..j], parent).value)
      {
        var e := DecodeNext(reader, ts, parent, j, positions, k0);
        if e.Err? {
          return Err(e.error);
        }
        positions := positions + [e.value];
      }
      assert ts[..|ts|] == ts;
      r := Ok(positions);
    }
  }

  /** `SignatureKeys` on the first j + 1 elements, unfolded once. */
  lemma SignatureKeysStep(reader: MetadataReader, ts: seq<SignatureType>, parent: SignatureType, j: nat)
    requires WellFormed(reader) && Below(reader, ts, parent) && j < |ts|
    ensures Below(reader, ts[..j], parent) && Below(reader, ts[..j + 1], parent)
    ensures ts[j] < parent && ValidSignature(reader, ts[j])
    ensures SignatureKeys(reader, ts[..j + 1], parent)
         == var init := SignatureKeys(reader, ts[..j], parent);
            if init.Err? then init
            else
              var last := SignatureKey(reader, ts[j]);
              if last.Err? then Err(last.error) else Ok(init.value + [last.value])
  {
    BelowPrefix(reader, ts, parent, j);
    BelowPrefix(reader, ts, parent, j + 1);
    assert ts[..j + 1][..j] == ts[..j];
    assert ts[..j + 1][j] == ts[j];
    assert ts[j] in ts;
  }

  /** The keys at the given positions, in order. */
  function KeysAt(keys: seq<TypeKey>, positions: seq<nat>): (ks: seq<TypeKey>)
    requires forall j :: 0 <= j < |positions| ==> positions[j] < |keys|
    ensures |ks| == |positions|
    ensures forall j :: 0 <= j < |positions| ==> ks[j] == keys[positions[j]]
  {
    seq(|positions|, j requires 0 <= j < |positions| => keys[positions[j]])
  }

  lemma RefersToKeysAt(keys: seq<TypeKey>, positions: seq<nat>, expected: seq<TypeKey>)
    requires RefersTo(keys, positions, expected)
    ensures forall j :: 0 <= j < |positions| ==> positions[j] < |keys|
    ensures KeysAt(keys, positions) == expected
  {
  }

  /** Every element of `ts` lies below `parent` and resolves in the reader. */
  ghost predicate Below(reader: MetadataReader, ts: seq<SignatureType>, parent: SignatureType)
  {
    forall a :: a in ts ==> a < parent && ValidSignature(reader, a)
  }

  lemma BelowPrefix(reader: MetadataReader, ts: seq<SignatureType>, parent: SignatureType, n: nat)
    requires Below(reader, ts, parent) && n <= |ts|
    ensures Below(reader, ts[..n], parent)
  {
    assert forall a :: a in ts[..n] ==> a in ts;
  }

  /** A failure on a prefix is the failure of the whole list: decoding stops at the first exception. */
  lemma {:induction false} SignatureKeysPrefixError(reader: MetadataReader, ts: seq<SignatureType>, parent: SignatureType, n: nat)
    requires WellFormed(reader) && Below(reader, ts, parent) && n <= |ts|
    requires Below(reader, ts[..n], parent) && SignatureKeys(reader, ts[..n], parent).Err?
    ensures SignatureKeys(reader, ts, parent) == SignatureKeys(reader, ts[..n], parent)
    decreases |ts|
  {
    if n < |ts| {
      var init := ts[..|ts| - 1];
      BelowPrefix(reader, ts, parent, |ts| - 1);
      assert init[..n] == ts[..n];
      SignatureKeysPrefixError(reader, init, parent, n);
    } else {
      assert ts[..n] == ts;
    }
  }
}

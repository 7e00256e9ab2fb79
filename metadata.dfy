/** Attribute bit-fields of ECMA-335 Partition II, shared by System.Reflection.Metadata and Mono.Cecil. */
module TypeAttributes {
  // Section 23.1.15 of ECMA-335 Partition II: the 3-bit visibility field.
  const VisibilityMask: bv32 := 0x7
  const NotPublic: bv32 := 0x0
  const Public: bv32 := 0x1
  const NestedPublic: bv32 := 0x2
  const NestedPrivate: bv32 := 0x3
  const NestedFamily: bv32 := 0x4
  const NestedAssembly: bv32 := 0x5
  const NestedFamANDAssem: bv32 := 0x6
  const NestedFamORAssem: bv32 := 0x7
  // Class semantics and other flags.
  const Interface: bv32 := 0x20
  const Abstract: bv32 := 0x80
  const Sealed: bv32 := 0x100
  const SpecialName: bv32 := 0x400
}

module MethodAttributes {
  // Section 23.1.10 of ECMA-335 Partition II: the 3-bit member access field.
  const MemberAccessMask: bv32 := 0x7
  const CompilerControlled: bv32 := 0x0
  const Private: bv32 := 0x1
  const FamANDAssem: bv32 := 0x2
  const Assembly: bv32 := 0x3
  const Family: bv32 := 0x4
  const FamORAssem: bv32 := 0x5
  const Public: bv32 := 0x6
  const Static: bv32 := 0x10
  const Final: bv32 := 0x20
  const Abstract: bv32 := 0x400
  const SpecialName: bv32 := 0x800
}

module PropertyAttributes {
  // Section 23.1.14 of ECMA-335 Partition II.
  const SpecialName: bv32 := 0x200
}

/** `Enum.HasFlag`: every bit of `flag` is set in `value`. */
module Flags {
  predicate HasFlag(value: bv32, flag: bv32)
  {
    value & flag == flag
  }
}

/**
 * The parts of a System.Reflection.Metadata reader the older scanner and the
 * newer metadata helpers read: handles, table rows, the string heap and decoded
 * signature elements. The reader itself is foreign; it is modelled as plain data.
 */
module Srm {
  /** PrimitiveTypeCode values (the element type codes of section 23.1.16 of ECMA-335 Partition II). */
  const CodeVoid: int := 0x01
  const CodeBoolean: int := 0x02
  const CodeChar: int := 0x03
  const CodeSByte: int := 0x04
  const CodeByte: int := 0x05
  const CodeInt16: int := 0x06
  const CodeUInt16: int := 0x07
  const CodeInt32: int := 0x08
  const CodeUInt32: int := 0x09
  const CodeInt64: int := 0x0A
  const CodeUInt64: int := 0x0B
  const CodeSingle: int := 0x0C
  const CodeDouble: int := 0x0D
  const CodeString: int := 0x0E
  const CodeTypedReference: int := 0x16
  const CodeIntPtr: int := 0x18
  const CodeUIntPtr: int := 0x19
  const CodeObject: int := 0x1C

  /** Offset into the #Strings heap; offset 0 is the nil handle. */
  datatype StringHandle = StringHandle(offset: nat)
  {
    predicate IsNil() { offset == 0 }
  }

  /** Row number in the TypeDef table; row 0 is the nil handle. */
  datatype TypeDefinitionHandle = TypeDefinitionHandle(row: nat)
  {
    predicate IsNil() { row == 0 }
  }

  /** Row number in the TypeRef table; row 0 is the nil handle. */
  datatype TypeReferenceHandle = TypeReferenceHandle(row: nat)
  {
    predicate IsNil() { row == 0 }
  }

  datatype HandleKind = TypeDefinitionKind | TypeReferenceKind | TypeSpecificationKind | OtherKind

  /** A coded-index handle of any table; row 0 is nil whatever the kind. */
  datatype EntityHandle = EntityHandle(kind: HandleKind, row: nat)
  {
    predicate IsNil() { row == 0 }
  }

  /** Geometry of a general array, section 23.2.13 of ECMA-335 Partition II. */
  datatype ArrayShape = ArrayShape(rank: nat, sizes: seq<int>, lowerBounds: seq<int>)

  /** A decoded type signature element, section 23.2.12 of ECMA-335 Partition II. */
  datatype SignatureType =
    | Primitive(code: int)
    | TypeDefinitionElement(definition: TypeDefinitionHandle)
    | TypeReferenceElement(reference: TypeReferenceHandle)
    | TypeSpecificationElement(specification: nat)
    | SZArray(element: SignatureType)
    | GeneralArray(element: SignatureType, shape: ArrayShape)
    | GenericInstantiation(genericType: SignatureType, arguments: seq<SignatureType>)
    | ByReference(element: SignatureType)
    | Pointer(element: SignatureType)
    | FunctionPointer(returnType: SignatureType, parameterTypes: seq<SignatureType>)
    | GenericTypeParameter(index: int)
    | GenericMethodParameter(index: int)
    | Modified(modifier: SignatureType, unmodified: SignatureType, isRequired: bool)
    | Pinned(element: SignatureType)

  /** A decoded method signature blob. */
  datatype MethodSignature = MethodSignature(returnType: SignatureType, parameterTypes: seq<SignatureType>)

  datatype MethodDefinition = MethodDefinition(attributes: bv32, name: StringHandle, signature: MethodSignature)

  /** A TypeDef row with its interface implementations and methods already resolved. */
  datatype TypeDefinition = TypeDefinition(
    attributes: bv32,
    namespace: StringHandle,
    name: StringHandle,
    baseType: EntityHandle,
    interfaces: seq<EntityHandle>,
    methods: seq<MethodDefinition>)

  datatype TypeReference = TypeReference(namespace: StringHandle, name: StringHandle)

  datatype AssemblyReference = AssemblyReference(name: StringHandle)

  datatype MetadataReader = MetadataReader(
    strings: map<nat, string>,
    typeDefinitions: seq<TypeDefinition>,
    typeReferences: seq<TypeReference>,
    assemblyReferences: seq<AssemblyReference>,
    assemblyName: StringHandle)

  predicate ValidString(reader: MetadataReader, h: StringHandle)
  {
    h.IsNil() || h.offset in reader.strings
  }

  predicate ValidDefinition(reader: MetadataReader, h: TypeDefinitionHandle)
  {
    h.row <= |reader.typeDefinitions|
  }

  predicate ValidReference(reader: MetadataReader, h: TypeReferenceHandle)
  {
    h.row <= |reader.typeReferences|
  }

  predicate ValidEntity(reader: MetadataReader, h: EntityHandle)
  {
    (h.kind == TypeDefinitionKind ==> h.row <= |reader.typeDefinitions|)
    && (h.kind == TypeReferenceKind ==> h.row <= |reader.typeReferences|)
  }

  /** Every handle inside the signature resolves in the reader. */
  predicate ValidSignature(reader: MetadataReader, t: SignatureType)
  {
    match t
    case TypeDefinitionElement(h) => ValidDefinition(reader, h)
    case TypeReferenceElement(h) => ValidReference(reader, h)
    case SZArray(e) => ValidSignature(reader, e)
    case GeneralArray(e, _) => ValidSignature(reader, e)
    case GenericInstantiation(g, args) =>
      ValidSignature(reader, g) && forall a :: a in args ==> ValidSignature(reader, a)
    case ByReference(e) => ValidSignature(reader, e)
    case Pointer(e) => ValidSignature(reader, e)
    case FunctionPointer(r, ps) =>
      ValidSignature(reader, r) && forall p :: p in ps ==> ValidSignature(reader, p)
    case Modified(m, u, _) => ValidSignature(reader, m) && ValidSignature(reader, u)
    case Pinned(e) => ValidSignature(reader, e)
    case _ => true
  }

  predicate ValidMethod(reader: MetadataReader, m: MethodDefinition)
  {
    ValidString(reader, m.name)
    && ValidSignature(reader, m.signature.returnType)
    && forall p :: p in m.signature.parameterTypes ==> ValidSignature(reader, p)
  }

  predicate ValidTypeDefinition(reader: MetadataReader, t: TypeDefinition)
  {
    ValidString(reader, t.namespace) && ValidString(reader, t.name)
    && ValidEntity(reader, t.baseType)
    && (forall i :: i in t.interfaces ==> ValidEntity(reader, i))
    && forall m :: m in t.methods ==> ValidMethod(reader, m)
  }

  /** The well-formedness the reader guarantees for a module it has opened. */
  predicate WellFormed(reader: MetadataReader)
  {
    ValidString(reader, reader.assemblyName)
    && (forall r :: r in reader.typeReferences ==> ValidString(reader, r.namespace) && ValidString(reader, r.name))
    && (forall r :: r in reader.assemblyReferences ==> ValidString(reader, r.name))
    && forall t :: t in reader.typeDefinitions ==> ValidTypeDefinition(reader, t)
  }

  /** `reader.GetTypeDefinition(handle)` for a non-nil handle. */
  function GetTypeDefinition(reader: MetadataReader, h: TypeDefinitionHandle): (d: TypeDefinition)
    requires !h.IsNil() && ValidDefinition(reader, h)
    ensures d in reader.typeDefinitions
  {
    reader.typeDefinitions[h.row - 1]
  }

  /** `reader.GetTypeReference(handle)` for a non-nil handle. */
  function GetTypeReference(reader: MetadataReader, h: TypeReferenceHandle): (r: TypeReference)
    requires !h.IsNil() && ValidReference(reader, h)
    ensures r in reader.typeReferences
  {
    reader.typeReferences[h.row - 1]
  }

  /** `reader.GetString(handle)` for a non-nil handle. */
  function HeapString(reader: MetadataReader, h: StringHandle): string
    requires !h.IsNil() && ValidString(reader, h)
  {
    reader.strings[h.offset]
  }
}

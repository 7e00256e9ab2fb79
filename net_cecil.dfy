/**
 * The Mono.Cecil objects the newer scanners read, as plain data. Each object
 * carries the key that the factory overloads taking Cecil objects derive from it
 * (those overloads are not part of this model), so a scan interns exactly the
 * key given here.
 */
module Cecil {
  import opened Wrappers
  import opened NetTypeKeys

  datatype TypeReference = TypeReference(key: TypeKey, fullName: string)

  /** A generic parameter: the type key of its owner and its own name. */
  datatype GenericParameter = GenericParameter(ownerKey: TypeKey, name: string)

  datatype ParameterDefinition = ParameterDefinition(
    key: MethodParameterKey,
    sequence: int,
    parameterType: TypeReference)

  datatype MethodDefinition = MethodDefinition(
    key: MethodKey,
    name: string,
    attributes: bv32,
    genericParameters: seq<GenericParameter>,
    returnType: TypeReference,
    parameters: seq<ParameterDefinition>)

  /** A property; `getter` is the return type of `GetMethod`, None when the property has no getter. */
  datatype PropertyDefinition = PropertyDefinition(
    key: PropertyKey,
    attributes: bv32,
    getter: Option<TypeReference>)

  datatype TypeDefinition = TypeDefinition(
    key: TypeKey,
    name: string,
    attributes: bv32,
    baseType: Option<TypeReference>,
    genericParameters: seq<GenericParameter>,
    methods: seq<MethodDefinition>,
    properties: seq<PropertyDefinition>,
    interfaces: seq<TypeReference>,
    customAttributes: seq<TypeReference>)

  datatype AssemblyDefinition = AssemblyDefinition(key: AssemblyKey)

  datatype ModuleDefinition = ModuleDefinition(assemblyReferences: seq<AssemblyKey>, types: seq<TypeDefinition>)
}

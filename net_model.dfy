/**
 * ArchitectureAnalyzer.Net.Model: the node records of the newer scanner. Every
 * node lives in its factory's arena; a reference to another node is that node's
 * position in the arena of its kind (see NetModelFactory).
 */
module NetModel {
  import opened Wrappers
  import opened Strings

  datatype Visibility = Public | Internal | Protected | Private

  datatype TypeClass = External | Class | Interface | Enum | GenericTypeArg

  /**
   * A `NetType` node; `assembly`, `baseType` and the lists refer to arena positions.
   * NetType.cs declares all the fields but `visibility`, `assembly`, `properties`
   * and the three instantiation fields: the scanners assign or read those on the
   * later `NetType` they were written against.
   */
  datatype NetType = NetType(
    typeClass: TypeClass,
    name: Option<string>,
    displayName: Option<string>,
    namespace: Option<string>,
    visibility: Visibility,
    isAbstract: bool,
    isStatic: bool,
    isSealed: bool,
    hasAttribute: bool,
    assembly: Option<nat>,
    baseType: Option<nat>,
    implements: seq<nat>,
    attributes: seq<nat>,
    methods: seq<nat>,
    properties: seq<nat>,
    genericTypeArgs: seq<nat>,
    isGenericTypeInstantiation: bool,
    genericType: Option<nat>,
    genericTypeInstantiationArgs: seq<nat>)
  {
    /** `IsGeneric`: a type is generic when the scan gave it generic type arguments. */
    predicate IsGeneric() { |genericTypeArgs| > 0 }
  }

  datatype NetAssembly = NetAssembly(name: Option<string>, references: seq<nat>, definedTypes: seq<nat>)

  /**
   * A `NetMethod` node. NetMethod.cs declares neither `declaringType` nor
   * `visibility`, and holds `ParameterTypes` where the scanners use the list of
   * parameter nodes `parameters`: these three come from the later `NetMethod`.
   */
  datatype NetMethod = NetMethod(
    name: Option<string>,
    declaringType: Option<nat>,
    visibility: Visibility,
    isAbstract: bool,
    isStatic: bool,
    isSealed: bool,
    isGeneric: bool,
    returnType: Option<nat>,
    parameters: seq<nat>,
    genericParameters: seq<nat>)

  datatype NetMethodParameter = NetMethodParameter(
    name: Option<string>,
    order: int,
    parameterType: Option<nat>,
    declaringMethod: Option<nat>)

  datatype NetProperty = NetProperty(name: Option<string>, propertyType: Option<nat>, declaringType: Option<nat>)

  /** The state of `new NetType()`. */
  function NewType(): (t: NetType)
    ensures t.typeClass == External && !t.IsGeneric()
    ensures t.implements == [] && t.attributes == [] && t.methods == [] && t.genericTypeArgs == []
    ensures !t.isAbstract && !t.isStatic && !t.isSealed && !t.hasAttribute && t.baseType.None?
  {
    NetType(External, None, None, None, Public, false, false, false, false,
            None, None, [], [], [], [], [], false, None, [])
  }

  /** The state of `new NetAssembly()`. */
  function NewAssembly(): (a: NetAssembly)
    ensures a.references == [] && a.definedTypes == [] && a.name.None?
  {
    NetAssembly(None, [], [])
  }

  function NewMethod(): (m: NetMethod)
    ensures m.genericParameters == [] && m.returnType.None? && m.declaringType.None?
  {
    NetMethod(None, None, Public, false, false, false, false, None, [], [])
  }

  function NewMethodParameter(): (p: NetMethodParameter)
    ensures p.parameterType.None? && p.declaringMethod.None? && p.order == 0
  {
    NetMethodParameter(None, 0, None, None)
  }

  function NewProperty(): (p: NetProperty)
    ensures p.propertyType.None? && p.declaringType.None?
  {
    NetProperty(None, None, None)
  }

  /** `NetType.ToString()`. */
  function TypeToString(t: NetType): (s: string)
    ensures StartsWith(s, "NetType(") && s[|s| - 1] == ')'
    ensures s[8..|s| - 1] == Text(t.namespace) + "." + Text(t.name)
  {
    "NetType(" + Text(t.namespace) + "." + Text(t.name) + ")"
  }

  /** `NetAssembly.ToString()`. */
  function AssemblyToString(a: NetAssembly): (s: string)
    ensures StartsWith(s, "NetAssembly(") && s[|s| - 1] == ')'
    ensures s[12..|s| - 1] == Text(a.name)
  {
    "NetAssembly(" + Text(a.name) + ")"
  }

  /** A property value as the JSON serialiser writes it. */
  datatype Scalar = Number(n: int) | Flag(b: bool) | Str(s: Option<string>)

  function TypeClassName(c: TypeClass): string
  {
    match c
    case External => "External"
    case Class => "Class"
    case Interface => "Interface"
    case Enum => "Enum"
    case GenericTypeArg => "GenericTypeArg"
  }

  /**
   * The properties serialised for a type node: `Id` and the scalar members of
   * NetType.cs, the enum by name; the `[JsonIgnore]` references are not among them.
   * This follows the declared class, so the members only the later `NetType` has,
   * `Visibility` among them, are not serialised.
   */
  function SerializedType(id: int, t: NetType): (p: seq<(string, Scalar)>)
    ensures |p| == 10
  {
    [("Id", Number(id)), ("Type", Str(Some(TypeClassName(t.typeClass)))), ("Name", Str(t.name)),
     ("DisplayName", Str(t.displayName)), ("Namespace", Str(t.namespace)),
     ("IsAbstract", Flag(t.isAbstract)), ("IsStatic", Flag(t.isStatic)), ("IsSealed", Flag(t.isSealed)),
     ("IsGeneric", Flag(t.IsGeneric())), ("HasAttribute", Flag(t.hasAttribute))]
  }

  /** The properties serialised for an assembly node: `Id` and `Name` only. */
  function SerializedAssembly(id: int, a: NetAssembly): (p: seq<(string, Scalar)>)
    ensures |p| == 2
  {
    [("Id", Number(id)), ("Name", Str(a.name))]
  }

  /** Replacing the base type, interfaces, attributes or methods leaves the serialised type unchanged. */
  lemma TypeReferencesNotSerialized(id: int, t: NetType, base: Option<nat>, impls: seq<nat>, attrs: seq<nat>, ms: seq<nat>)
    ensures SerializedType(id, t.(baseType := base, implements := impls, attributes := attrs, methods := ms))
         == SerializedType(id, t)
  {
  }

  /** The members that NetType.cs does not declare never change what a type node serialises. */
  lemma LaterMembersNotSerialized(id: int, t: NetType, v: Visibility, a: Option<nat>, ps: seq<nat>,
                                  inst: bool, g: Option<nat>, args: seq<nat>)
    ensures SerializedType(id, t.(visibility := v, assembly := a, properties := ps, isGenericTypeInstantiation := inst,
                                  genericType := g, genericTypeInstantiationArgs := args))
         == SerializedType(id, t)
  {
  }

  /** Replacing References or DefinedTypes leaves the serialised assembly unchanged. */
  lemma AssemblyReferencesNotSerialized(id: int, a: NetAssembly, refs: seq<nat>, types: seq<nat>)
    ensures SerializedAssembly(id, a.(references := refs, definedTypes := types)) == SerializedAssembly(id, a)
  {
  }

  /** `HasParameterRelationship`: a relationship with an immutable `Order`. */
  datatype HasParameterRelationship = HasParameterRelationship(order: int)

  /** The argument of `HasParameterRelationship.Equals(object)`. */
  datatype Object =
    | NullObject
    | ThisObject                                       // the receiver itself
    | ParameterRelationshipObject(r: HasParameterRelationship)
    | OtherObject                                      // an instance of any other class

  function RelationshipEquals(self: HasParameterRelationship, obj: Object): (r: bool)
    ensures obj == NullObject || obj == OtherObject ==> !r
    ensures obj.ParameterRelationshipObject? ==> (r <==> obj.r.order == self.order)
  {
    match obj
    case NullObject => false
    case ThisObject => true
    case ParameterRelationshipObject(other) => self.order == other.order
    case OtherObject => false
  }

  function RelationshipHashCode(self: HasParameterRelationship): int
  {
    self.order
  }

  /** The reference-equality shortcut answers as the Order comparison would. */
  lemma ReferenceShortcutAgrees(self: HasParameterRelationship)
    ensures RelationshipEquals(self, ThisObject) == RelationshipEquals(self, ParameterRelationshipObject(self))
  {
  }

  /** Equal relationships have equal hash codes. */
  lemma EqualRelationshipsHashEqually(a: HasParameterRelationship, b: HasParameterRelationship)
    requires RelationshipEquals(a, ParameterRelationshipObject(b))
    ensures RelationshipHashCode(a) == RelationshipHashCode(b)
  {
  }
}

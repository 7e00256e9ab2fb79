/**
 * The node records of the older scanner (DotnetScanner/Model) and the names it
 * gives relationships (DotnetScanner/Scanner/Relationship.cs). As in the newer
 * scanner, a reference to another node is that node's position in the map of
 * its kind (see DotnetNodeFactory). The older scanner has no assembly record
 * of its own: it fills the `NetAssembly` of Net.Model.
 */
module DotnetModel {
  import opened Wrappers
  import NetModel

  /** `NetType.TypeClass`; `Class` is the enum's default. */
  datatype TypeClass = Class | Interface | Enum

  /** The older `NetType`; `baseType` and `implements` refer to type positions. */
  datatype NetType = NetType(
    typeClass: TypeClass,
    name: Option<string>,
    namespace: Option<string>,
    isAbstract: bool,
    isStatic: bool,
    isSealed: bool,
    baseType: Option<nat>,
    implements: seq<nat>)

  /**
   * The older `NetMethod`. `returnType` and `parameterTypes` are the two
   * fields `MethodScanner.ScanMethod` assigns although the record shown lacks
   * them; they refer to type positions.
   */
  datatype NetMethod = NetMethod(
    name: Option<string>,
    isAbstract: bool,
    isStatic: bool,
    isSealed: bool,
    returnType: Option<nat>,
    parameterTypes: seq<nat>)

  /** The assembly record the older scanner fills; its lists refer to assembly and type positions. */
  type NetAssembly = NetModel.NetAssembly

  /** The state of a freshly interned type: the constructor's empty `Implements`, every other field defaulted. */
  function NewType(): (t: NetType)
    ensures t.typeClass == Class && t.baseType.None? && t.implements == []
    ensures t.name.None? && t.namespace.None? && !t.isAbstract && !t.isStatic && !t.isSealed
  {
    NetType(Class, None, None, false, false, false, None, [])
  }

  /** The state of a freshly interned method. */
  function NewMethod(): (m: NetMethod)
    ensures m.name.None? && m.returnType.None? && m.parameterTypes == []
    ensures !m.isAbstract && !m.isStatic && !m.isSealed
  {
    NetMethod(None, false, false, false, None, [])
  }

  /** The state of a freshly interned assembly. */
  function NewAssembly(): (a: NetAssembly)
    ensures a.name.None? && a.references == [] && a.definedTypes == []
  {
    NetModel.NewAssembly()
  }

  /** A node handed to the database: its kind and its position in the map of that kind. */
  datatype NodeRef = AssemblyRef(position: nat) | TypeRef(position: nat) | MethodRef(position: nat)

  const DefinesType: string := "DEFINES_TYPE"
  const DefinesMethod: string := "DEFINES_METHOD"
  const ExtendsKind: string := "EXTENDS"
  const Implements: string := "IMPLEMENTS"
  const DependsOn: string := "DEPENDS_ON"
  const HasAttribute: string := "HAS_ATTRIBUTE"
}

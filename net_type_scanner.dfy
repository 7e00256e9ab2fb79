/**
 * Net.Scanner/TypeScanner.cs: one Cecil type definition becomes a type node
 * with its class, visibility, flags, generic arguments, methods, properties,
 * display name, interfaces, attributes and base type.
 */
module NetTypeScanner {
  import opened Wrappers
  import opened Strings
  import opened Graph
  import opened Linq
  import opened NetTypeKeys
  import opened NetModel
  import opened NetModelFactory
  import opened NetVisibility
  import opened Flags
  import TA = TypeAttributes
  import MA = MethodAttributes
  import PA = PropertyAttributes
  import ScannerConstants
  import Cecil
  import opened NetAbstractScanner
  import opened NetMethodScanner
  import opened NetPropertyScanner

  /** `typeof(Enum).FullName`. */
  const EnumFullName: string := "System.Enum"

  /**
   * `GetTypeClass`: an interface by its attribute bit, else an enum when the
   * base type's full name is `System.Enum`, else a class.
   */
  function GetTypeClass(def: Cecil.TypeDefinition): (c: TypeClass)
    ensures c == Interface <==> HasFlag(def.attributes, TA.Interface)
    ensures c == Enum <==> !HasFlag(def.attributes, TA.Interface) && def.baseType.Some? && def.baseType.value.fullName == EnumFullName
    ensures c == Class || c == Interface || c == Enum
  {
    if HasFlag(def.attributes, TA.Interface) then Interface
    else if def.baseType.Some? && def.baseType.value.fullName == EnumFullName then Enum
    else Class
  }

  predicate IsSealed(def: Cecil.TypeDefinition) { HasFlag(def.attributes, TA.Sealed) && !HasFlag(def.attributes, TA.Abstract) }

  /** C# compiles a static class as `abstract sealed`. */
  predicate IsStatic(def: Cecil.TypeDefinition) { HasFlag(def.attributes, TA.Sealed) && HasFlag(def.attributes, TA.Abstract) }

  predicate IsAbstract(def: Cecil.TypeDefinition) { !HasFlag(def.attributes, TA.Sealed) && HasFlag(def.attributes, TA.Abstract) }

  /**
   * The three flags split the types carrying a `sealed` or `abstract` bit:
   * each such type has exactly one of them, and the bits are recovered from
   * the flags.
   */
  lemma TypeFlagsPartition(def: Cecil.TypeDefinition)
    ensures !(IsSealed(def) && IsStatic(def)) && !(IsSealed(def) && IsAbstract(def)) && !(IsStatic(def) && IsAbstract(def))
    ensures HasFlag(def.attributes, TA.Sealed) <==> IsSealed(def) || IsStatic(def)
    ensures HasFlag(def.attributes, TA.Abstract) <==> IsAbstract(def) || IsStatic(def)
  {
  }

  /** `IncludeMethod`: a listed special name, or any method without the SpecialName bit. */
  predicate IncludeMethod(m: Cecil.MethodDefinition)
  {
    ScannerConstants.IsMethodSpecialName(m.name) || !HasFlag(m.attributes, MA.SpecialName)
  }

  /** `IncludeProperty`: properties without the SpecialName bit. */
  predicate IncludeProperty(p: Cecil.PropertyDefinition)
  {
    !HasFlag(p.attributes, PA.SpecialName)
  }

  /** A property getter, setter or event accessor marked SpecialName is not scanned as a method. */
  lemma AccessorsAreSkipped(m: Cecil.MethodDefinition)
    requires HasFlag(m.attributes, MA.SpecialName)
    requires StartsWith(m.name, "get_") || StartsWith(m.name, "set_") || StartsWith(m.name, "add_") || StartsWith(m.name, "remove_")
    ensures !IncludeMethod(m)
  {
    ScannerConstants.AccessorsAreNotListed(m.name);
  }

  /** A constructor is scanned whatever its attributes. */
  lemma ConstructorsAreScanned(m: Cecil.MethodDefinition)
    requires m.name == ".ctor"
    ensures IncludeMethod(m)
  {
    ScannerConstants.ConstructorAndEqualityAreListed();
  }

  /** The methods and properties `CreateMethods` and `CreateProperties` scan, in declaration order. */
  function IncludedMethods(def: Cecil.TypeDefinition): seq<Cecil.MethodDefinition>
  {
    Where(def.methods, IncludeMethod)
  }

  function IncludedProperties(def: Cecil.TypeDefinition): seq<Cecil.PropertyDefinition>
  {
    Where(def.properties, IncludeProperty)
  }

  /**
   * `GetDisplayName` on a node named `name`: a generic type's name loses
   * everything from its last backtick on. A null name throws
   * NullReferenceException, and a generic name without a backtick makes
   * `Substring(0, -1)` throw ArgumentOutOfRangeException.
   */
  function DisplayName(name: Option<string>, isGeneric: bool): (r: Result<Option<string>>)
    ensures !isGeneric ==> r == Ok(name)
    ensures isGeneric && name.None? ==> r == Err(NullReference)
    ensures isGeneric && name.Some? ==> (r.Err? <==> '`' !in name.value)
    ensures isGeneric && name.Some? && r.Err? ==> r.error == ArgumentOutOfRange
    ensures isGeneric && r.Ok? ==>
      && name.Some? && r.value.Some?
      && var n, d := name.value, r.value.value;
      |d| < |n| && n[..|d|] == d && n[|d|] == '`' && '`' !in n[|d| + 1..]
  {
    if !isGeneric then Ok(name)
    else if name.None? then Err(NullReference)
    else match LastIndexOf(name.value, '`')
      case None => Err(ArgumentOutOfRange)
      case Some(i) => Ok(Some(name.value[..i]))
  }

  /** The compiler's name for a generic type, `Base`n`, displays as `Base`. */
  lemma DisplayNameOfGenericName(base: string, arity: nat)
    requires '`' !in base
    ensures DisplayName(Some(base + "`" + NatToString(arity)), true) == Ok(Some(base))
  {
    var n := base + "`" + NatToString(arity);
    var digits := NatToString(arity);
    assert '`' !in digits;
    assert n[..|base|] == base && n[|base|] == '`' && n[|base| + 1..] == digits;
    var i := LastIndexOf(n, '`').value;
    assert i == |base|;
  }

  function MethodKeys(ms: seq<Cecil.MethodDefinition>): (ks: seq<MethodKey>)
    ensures |ks| == |ms| && forall j :: 0 <= j < |ms| ==> ks[j] == ms[j].key
  {
    seq(|ms|, j requires 0 <= j < |ms| => ms[j].key)
  }

  function PropertyKeys(ps: seq<Cecil.PropertyDefinition>): (ks: seq<PropertyKey>)
    ensures |ks| == |ps| && forall j :: 0 <= j < |ps| ==> ks[j] == ps[j].key
  {
    seq(|ps|, j requires 0 <= j < |ps| => ps[j].key)
  }

  function ReferenceKeys(rs: seq<Cecil.TypeReference>): (ks: seq<TypeKey>)
    ensures |ks| == |rs| && forall j :: 0 <= j < |rs| ==> ks[j] == rs[j].key
  {
    seq(|rs|, j requires 0 <= j < |rs| => rs[j].key)
  }

  /** Every method has a supported access, so `ScanMethod` throws for none. */
  predicate MethodsSupported(ms: seq<Cecil.MethodDefinition>)
  {
    forall m :: m in ms ==> MethodVisibility(m.attributes).Ok?
  }

  /** Every property has a getter, so `ScanProperty` throws for none. */
  predicate PropertiesReadable(ps: seq<Cecil.PropertyDefinition>)
  {
    forall p :: p in ps ==> p.getter.Some?
  }

  /**
   * The exception `ScanType` throws, in the order it would meet them: the
   * type's own visibility, then what `MembersFailure` says.
   */
  function ScanTypeFailure(def: Cecil.TypeDefinition): Option<Failure>
  {
    if TypeVisibility(def.attributes).Err? then Some(ArgumentOutOfRange) else MembersFailure(def)
  }

  /** A scanned method's visibility, a scanned property without a getter, then the display name. */
  function MembersFailure(def: Cecil.TypeDefinition): Option<Failure>
  {
    if !MethodsSupported(IncludedMethods(def)) then Some(ArgumentOutOfRange)
    else if !PropertiesReadable(IncludedProperties(def)) then Some(NullReference)
    else match DisplayName(def.key.name, |def.genericParameters| > 0)
      case Err(e) => Some(e)
      case Ok(_) => None
  }

  /** The type keys `ScanMethod` interns for the methods `ms`. */
  function MethodsRenames(ms: seq<Cecil.MethodDefinition>): set<TypeKey>
  {
    if ms == [] then {} else MethodRenames(ms[0]) + MethodsRenames(ms[1..])
  }

  /** The type keys `ScanMethod` interns as generic arguments for the methods `ms`. */
  function MethodsRetypes(ms: seq<Cecil.MethodDefinition>): set<TypeKey>
  {
    if ms == [] then {} else GenericParameterKeySet(ms[0].genericParameters) + MethodsRetypes(ms[1..])
  }

  /** The type keys `ScanProperty` interns for the properties `ps`. */
  function PropertiesRenames(ps: seq<Cecil.PropertyDefinition>): set<TypeKey>
  {
    if ps == [] then {} else PropertyRenames(ps[0]) + PropertiesRenames(ps[1..])
  }

  /** Each method's keys are among the keys of a sequence holding it. */
  lemma {:induction false} MethodCovered(ms: seq<Cecil.MethodDefinition>, m: Cecil.MethodDefinition)
    requires m in ms
    ensures MethodRenames(m) <= MethodsRenames(ms)
    ensures GenericParameterKeySet(m.genericParameters) <= MethodsRetypes(ms)
  {
    if ms[0] != m {
      MethodCovered(ms[1..], m);
    }
  }

  /** Each property's key is among the keys of a sequence holding it. */
  lemma {:induction false} PropertyCovered(ps: seq<Cecil.PropertyDefinition>, p: Cecil.PropertyDefinition)
    requires p in ps
    ensures PropertyRenames(p) <= PropertiesRenames(ps)
  {
    if ps[0] != p {
      PropertyCovered(ps[1..], p);
    }
  }

  /** The type keys `CreateTypeModel` is called with while the type's methods and properties are scanned. */
  function MemberRenames(def: Cecil.TypeDefinition): set<TypeKey>
  {
    MethodsRenames(IncludedMethods(def)) + PropertiesRenames(IncludedProperties(def))
  }

  /** The type keys interned for interfaces, attributes and the base type. */
  function RelationRenames(def: Cecil.TypeDefinition): set<TypeKey>
  {
    (set r | r in def.interfaces :: r.key) + (set r | r in def.customAttributes :: r.key)
    + (if def.baseType.Some? then {def.baseType.value.key} else {})
  }

  /** Every type key a type scan interns. */
  function TypeRenames(def: Cecil.TypeDefinition): set<TypeKey>
  {
    {def.key} + MemberRenames(def) + RelationRenames(def)
  }

  /** Every type key a type scan interns as a generic argument: the type's and its methods'. */
  function TypeRetypes(def: Cecil.TypeDefinition): set<TypeKey>
  {
    GenericParameterKeySet(def.genericParameters) + MethodsRetypes(IncludedMethods(def))
  }

  /** A type whose generic parameters and methods' generic parameters are its own is never retyped by its scan. */
  lemma OwnArgumentsDoNotRetype(def: Cecil.TypeDefinition)
    requires forall gp :: gp in def.genericParameters ==> gp.ownerKey == def.key
    requires forall m, gp :: m in IncludedMethods(def) && gp in m.genericParameters ==> gp.ownerKey == def.key
    ensures def.key !in TypeRetypes(def)
  {
    OwnParametersDoNotRetype(def.genericParameters, def.key);
    OwnMethodsDoNotRetype(IncludedMethods(def), def.key);
  }

  /** Generic parameters owned by `owner` never produce `owner`'s own key. */
  lemma OwnParametersDoNotRetype(gps: seq<Cecil.GenericParameter>, owner: TypeKey)
    requires forall gp :: gp in gps ==> gp.ownerKey == owner
    ensures owner !in GenericParameterKeySet(gps)
  {
    forall gp | gp in gps
      ensures GenericParameterKey(gp) != owner
    {
      ArgumentIsNotOwner(owner, gp.name);
    }
  }

  lemma {:induction false} OwnMethodsDoNotRetype(ms: seq<Cecil.MethodDefinition>, owner: TypeKey)
    requires forall m, gp :: m in ms && gp in m.genericParameters ==> gp.ownerKey == owner
    ensures owner !in MethodsRetypes(ms)
  {
    if ms != [] {
      OwnParametersDoNotRetype(ms[0].genericParameters, owner);
      OwnMethodsDoNotRetype(ms[1..], owner);
    }
  }

  /** A type argument's key differs from its owner's: its name is longer. */
  lemma ArgumentIsNotOwner(owner: TypeKey, a: string)
    ensures FromTypeArgument(owner, a) != owner
  {
    if owner.name.Some? {
      assert |Text(owner.name) + "<" + a + ">"| > |owner.name.value|;
    }
  }

  /** The node's fields `ScanType` sets from the definition alone. */
  predicate Headed(n: NetType, def: Cecil.TypeDefinition, assembly: nat)
  {
    && n.assembly == Some(assembly)
    && TypeVisibility(def.attributes) == Ok(n.visibility)
    && n.isStatic == IsStatic(def) && n.isAbstract == IsAbstract(def) && n.isSealed == IsSealed(def)
  }

  /** The node's generic arguments, methods and properties refer to what the definition lists. */
  predicate Membered(n: NetType, def: Cecil.TypeDefinition,
                     typeKeys: seq<TypeKey>, methodKeys: seq<MethodKey>, propertyKeys: seq<PropertyKey>)
  {
    && RefersTo(typeKeys, n.genericTypeArgs, GenericParameterKeys(def.genericParameters))
    && RefersTo(methodKeys, n.methods, MethodKeys(IncludedMethods(def)))
    && RefersTo(propertyKeys, n.properties, PropertyKeys(IncludedProperties(def)))
  }

  /** The node's interfaces, attributes and base type refer to what the definition lists. */
  predicate Related(n: NetType, def: Cecil.TypeDefinition, typeKeys: seq<TypeKey>)
  {
    && RefersTo(typeKeys, n.implements, ReferenceKeys(def.interfaces))
    && RefersTo(typeKeys, n.attributes, ReferenceKeys(def.customAttributes))
    && (n.baseType.Some? <==> def.baseType.Some?)
    && (def.baseType.Some? ==> n.baseType.value < |typeKeys| && typeKeys[n.baseType.value] == def.baseType.value.key)
  }

  /**
   * What `ScanType` leaves in the type node, apart from the class and the
   * display name, which later scans may change.
   */
  predicate TypeModelled(n: NetType, def: Cecil.TypeDefinition, assembly: nat,
                         typeKeys: seq<TypeKey>, methodKeys: seq<MethodKey>, propertyKeys: seq<PropertyKey>)
  {
    && n.name == def.key.name && n.namespace == def.key.namespace
    && Headed(n, def, assembly)
    && Membered(n, def, typeKeys, methodKeys, propertyKeys)
    && Related(n, def, typeKeys)
  }

  /** A modelled type stays modelled while other scans evolve its node and grow the arenas. */
  lemma TypeModelledKept(n0: NetType, n1: NetType, def: Cecil.TypeDefinition, assembly: nat,
                         tk0: seq<TypeKey>, tk1: seq<TypeKey>, mk0: seq<MethodKey>, mk1: seq<MethodKey>,
                         pk0: seq<PropertyKey>, pk1: seq<PropertyKey>, renamed: set<TypeKey>, retyped: set<TypeKey>)
    requires TypeModelled(n0, def, assembly, tk0, mk0, pk0)
    requires TypeEvolves(n0, n1, def.key, renamed, retyped) && n1.name == n0.name && n1.namespace == n0.namespace
    requires Extends(tk0, tk1) && Extends(mk0, mk1) && Extends(pk0, pk1)
    ensures TypeModelled(n1, def, assembly, tk1, mk1, pk1)
  {
    MemberedKept(n0, n1, def, tk0, tk1, mk0, mk1, pk0, pk1);
    RefersToExtended(tk0, tk1, n1.implements, ReferenceKeys(def.interfaces));
    RefersToExtended(tk0, tk1, n1.attributes, ReferenceKeys(def.customAttributes));
    if def.baseType.Some? {
      ExtendsKeeps(tk0, tk1, n1.baseType.value);
    }
  }

  lemma MemberedKept(n0: NetType, n1: NetType, def: Cecil.TypeDefinition,
                     tk0: seq<TypeKey>, tk1: seq<TypeKey>, mk0: seq<MethodKey>, mk1: seq<MethodKey>,
                     pk0: seq<PropertyKey>, pk1: seq<PropertyKey>)
    requires Membered(n0, def, tk0, mk0, pk0)
    requires n1.genericTypeArgs == n0.genericTypeArgs && n1.methods == n0.methods && n1.properties == n0.properties
    requires Extends(tk0, tk1) && Extends(mk0, mk1) && Extends(pk0, pk1)
    ensures Membered(n1, def, tk1, mk1, pk1)
  {
    RefersToExtended(tk0, tk1, n1.genericTypeArgs, GenericParameterKeys(def.genericParameters));
    RefersToExtended(mk0, mk1, n1.methods, MethodKeys(IncludedMethods(def)));
    RefersToExtended(pk0, pk1, n1.properties, PropertyKeys(IncludedProperties(def)));
  }

  /** The first |ms| included methods are modelled by the nodes at `ms`. */
  ghost predicate MethodsModelled(nodes: seq<Node<int, NetMethod>>, ms: seq<nat>, defs: seq<Cecil.MethodDefinition>,
                                  typeModel: nat, typeKeys: seq<TypeKey>, parameterKeys: seq<MethodParameterKey>)
  {
    && |ms| <= |defs|
    && forall i :: 0 <= i < |ms| ==> ms[i] < |nodes| && MethodModelled(nodes[ms[i]].data, defs[i], typeModel, typeKeys, parameterKeys)
  }

  /** One more method scanned under a key no earlier method has: the earlier nodes stay modelled. */
  lemma MethodsModelledStep(mk1: seq<MethodKey>, mn1: seq<Node<int, NetMethod>>,
                            mk2: seq<MethodKey>, mn2: seq<Node<int, NetMethod>>,
                            tk1: seq<TypeKey>, tk2: seq<TypeKey>, pk1: seq<MethodParameterKey>, pk2: seq<MethodParameterKey>,
                            ms: seq<nat>, defs: seq<Cecil.MethodDefinition>, typeModel: nat, q: nat)
    requires Distinct(MethodKeys(defs)) && |ms| < |defs| && |mk1| == |mn1|
    requires RefersTo(mk1, ms, MethodKeys(defs)[..|ms|]) && MethodsModelled(mn1, ms, defs, typeModel, tk1, pk1)
    requires Extends(mk1, mk2) && Extends(tk1, tk2) && Extends(pk1, pk2)
    requires q < |mn2| && q < |mk2| && mk2[q] == defs[|ms|].key
    requires MethodModelled(mn2[q].data, defs[|ms|], typeModel, tk2, pk2) && KeptBut(mn1, mn2, q)
    ensures MethodsModelled(mn2, ms + [q], defs, typeModel, tk2, pk2)
  {
    var keys := MethodKeys(defs);
    forall i | 0 <= i < |ms|
      ensures ms[i] < |mn2| && MethodModelled(mn2[ms[i]].data, defs[i], typeModel, tk2, pk2)
    {
      assert mk1[ms[i]] == keys[..|ms|][i] == keys[i] && keys[i] != keys[|ms|];
      ExtendsKeeps(mk1, mk2, ms[i]);
      MethodModelledExtended(mn1[ms[i]].data, defs[i], typeModel, tk1, tk2, pk1, pk2);
    }
  }

  lemma MethodsModelledExtended(nodes: seq<Node<int, NetMethod>>, ms: seq<nat>, defs: seq<Cecil.MethodDefinition>, typeModel: nat,
                                tk1: seq<TypeKey>, tk2: seq<TypeKey>, pk: seq<MethodParameterKey>)
    requires MethodsModelled(nodes, ms, defs, typeModel, tk1, pk) && Extends(tk1, tk2)
    ensures MethodsModelled(nodes, ms, defs, typeModel, tk2, pk)
  {
    ExtendsReflexive(pk);
    forall i | 0 <= i < |ms|
      ensures MethodModelled(nodes[ms[i]].data, defs[i], typeModel, tk2, pk)
    {
      MethodModelledExtended(nodes[ms[i]].data, defs[i], typeModel, tk1, tk2, pk, pk);
    }
  }

  /** The first |ps| included properties are modelled by the nodes at `ps`. */
  ghost predicate PropertiesModelled(nodes: seq<Node<int, NetProperty>>, ps: seq<nat>, defs: seq<Cecil.PropertyDefinition>,
                                     typeModel: nat, typeKeys: seq<TypeKey>)
  {
    && |ps| <= |defs|
    && forall i :: 0 <= i < |ps| ==> ps[i] < |nodes| && PropertyModelled(nodes[ps[i]].data, defs[i], typeModel, typeKeys)
  }

  lemma PropertiesModelledStep(pk1: seq<PropertyKey>, pn1: seq<Node<int, NetProperty>>,
                               pk2: seq<PropertyKey>, pn2: seq<Node<int, NetProperty>>,
                               tk1: seq<TypeKey>, tk2: seq<TypeKey>,
                               ps: seq<nat>, defs: seq<Cecil.PropertyDefinition>, typeModel: nat, q: nat)
    requires Distinct(PropertyKeys(defs)) && |ps| < |defs| && |pk1| == |pn1|
    requires RefersTo(pk1, ps, PropertyKeys(defs)[..|ps|]) && PropertiesModelled(pn1, ps, defs, typeModel, tk1)
    requires Extends(pk1, pk2) && Extends(tk1, tk2)
    requires q < |pn2| && q < |pk2| && pk2[q] == defs[|ps|].key
    requires PropertyModelled(pn2[q].data, defs[|ps|], typeModel, tk2) && KeptBut(pn1, pn2, q)
    ensures PropertiesModelled(pn2, ps + [q], defs, typeModel, tk2)
  {
    var keys := PropertyKeys(defs);
    forall i | 0 <= i < |ps|
      ensures ps[i] < |pn2| && PropertyModelled(pn2[ps[i]].data, defs[i], typeModel, tk2)
    {
      assert pk1[ps[i]] == keys[..|ps|][i] == keys[i] && keys[i] != keys[|ps|];
      ExtendsKeeps(pk1, pk2, ps[i]);
      PropertyModelledExtended(pn1[ps[i]].data, defs[i], typeModel, tk1, tk2);
    }
  }

  lemma PropertiesModelledExtended(nodes: seq<Node<int, NetProperty>>, ps: seq<nat>, defs: seq<Cecil.PropertyDefinition>,
                                   typeModel: nat, tk1: seq<TypeKey>, tk2: seq<TypeKey>)
    requires PropertiesModelled(nodes, ps, defs, typeModel, tk1) && Extends(tk1, tk2)
    ensures PropertiesModelled(nodes, ps, defs, typeModel, tk2)
  {
    forall i | 0 <= i < |ps|
      ensures PropertyModelled(nodes[ps[i]].data, defs[i], typeModel, tk2)
    {
      PropertyModelledExtended(nodes[ps[i]].data, defs[i], typeModel, tk1, tk2);
    }
  }

  /**
   * What lines 33 to 36 of `ScanType` leave in the type node at `t` and in the
   * method and property arenas: the head written before them, the member
   * lists, the display name and, under distinct keys, the member nodes.
   */
  ghost predicate MembersScanned(n: NetType, def: Cecil.TypeDefinition, assembly: nat, t: nat, retyped: set<TypeKey>,
                                 typeKeys: seq<TypeKey>, methodKeys: seq<MethodKey>, methods: seq<Node<int, NetMethod>>,
                                 parameterKeys: seq<MethodParameterKey>, propertyKeys: seq<PropertyKey>,
                                 properties: seq<Node<int, NetProperty>>)
  {
    && Headed(n, def, assembly)
    && Membered(n, def, typeKeys, methodKeys, propertyKeys)
    && (def.key !in retyped ==> n.typeClass == GetTypeClass(def))
    && DisplayName(def.key.name, |def.genericParameters| > 0) == Ok(n.displayName)
    && (Distinct(MethodKeys(IncludedMethods(def))) ==>
          MethodsModelled(methods, n.methods, IncludedMethods(def), t, typeKeys, parameterKeys))
    && (Distinct(PropertyKeys(IncludedProperties(def))) ==>
          PropertiesModelled(properties, n.properties, IncludedProperties(def), t, typeKeys))
  }

  /**
   * What a successful `ScanType` leaves in the type node at `t`: everything
   * the definition lists, the class unless a generic parameter of the type
   * shares its key, the display name unless a relation of the type does, and,
   * under distinct keys, the member nodes.
   */
  ghost predicate TypeScanned(n: NetType, def: Cecil.TypeDefinition, assembly: nat, t: nat,
                              typeKeys: seq<TypeKey>, methodKeys: seq<MethodKey>, methods: seq<Node<int, NetMethod>>,
                              parameterKeys: seq<MethodParameterKey>, propertyKeys: seq<PropertyKey>,
                              properties: seq<Node<int, NetProperty>>)
  {
    && TypeModelled(n, def, assembly, typeKeys, methodKeys, propertyKeys)
    && (def.key !in TypeRetypes(def) ==> n.typeClass == GetTypeClass(def))
    && (def.key !in RelationRenames(def) ==> DisplayName(def.key.name, |def.genericParameters| > 0) == Ok(n.displayName))
    && (Distinct(MethodKeys(IncludedMethods(def))) ==>
          MethodsModelled(methods, n.methods, IncludedMethods(def), t, typeKeys, parameterKeys))
    && (Distinct(PropertyKeys(IncludedProperties(def))) ==>
          PropertiesModelled(properties, n.properties, IncludedProperties(def), t, typeKeys))
  }

  /** Lines 37 to 39 change only the relations (and perhaps the display name) of a node whose members are scanned. */
  lemma RelationsCompleteScan(before: NetType, n: NetType, def: Cecil.TypeDefinition, assembly: nat, t: nat,
                              tk0: seq<TypeKey>, tk1: seq<TypeKey>, mk: seq<MethodKey>, methods: seq<Node<int, NetMethod>>,
                              qk: seq<MethodParameterKey>, pk: seq<PropertyKey>, properties: seq<Node<int, NetProperty>>)
    requires MembersScanned(before, def, assembly, t, TypeRetypes(def), tk0, mk, methods, qk, pk, properties)
    requires before.name == def.key.name && before.namespace == def.key.namespace
    requires Extends(tk0, tk1) && Related(n, def, tk1)
    requires n.(implements := before.implements, attributes := before.attributes, baseType := before.baseType,
                displayName := before.displayName) == before
    requires def.key !in RelationRenames(def) ==> n.displayName == before.displayName
    ensures TypeScanned(n, def, assembly, t, tk1, mk, methods, qk, pk, properties)
  {
    ExtendsReflexive(mk);
    ExtendsReflexive(pk);
    MemberedKept(before, n, def, tk0, tk1, mk, mk, pk, pk);
    if Distinct(MethodKeys(IncludedMethods(def))) {
      MethodsModelledExtended(methods, n.methods, IncludedMethods(def), t, tk0, tk1, qk);
    }
    if Distinct(PropertyKeys(IncludedProperties(def))) {
      PropertiesModelledExtended(properties, n.properties, IncludedProperties(def), t, tk0, tk1);
    }
  }

  /** The keys one included method interns are among the type's. */
  lemma MethodSetsIncluded(def: Cecil.TypeDefinition, m: Cecil.MethodDefinition)
    requires m in IncludedMethods(def)
    ensures MethodRenames(m) <= MemberRenames(def) && GenericParameterKeySet(m.genericParameters) <= TypeRetypes(def)
  {
    MethodCovered(IncludedMethods(def), m);
  }

  lemma PropertySetsIncluded(def: Cecil.TypeDefinition, p: Cecil.PropertyDefinition)
    requires p in IncludedProperties(def)
    ensures PropertyRenames(p) <= MemberRenames(def)
  {
    PropertyCovered(IncludedProperties(def), p);
  }

  /** `CreateMethods`: `ScanMethod` on every included method, in order; the first that throws ends the scan. */
  method CreateMethods(factory: ModelFactory, def: Cecil.TypeDefinition, typeModel: nat,
                       ghost k0: seq<TypeKey>, ghost n0: seq<Node<int, NetType>>,
                       ghost renamed: set<TypeKey>, ghost retyped: set<TypeKey>) returns (r: Result<seq<nat>>)
    requires factory.Separate() && factory.TypesValid() && factory.MethodsValid() && factory.ParametersValid()
    requires MemberRenames(def) <= renamed && TypeRetypes(def) <= retyped
    requires TypesEvolve(k0, n0, factory.typeMap.keys, factory.typeMap.nodes, renamed, retyped)
    modifies factory.methodMap, factory.typeMap, factory.parameterMap
    ensures factory.TypesValid() && factory.MethodsValid() && factory.ParametersValid()
    ensures Extends(old(factory.typeMap.keys), factory.typeMap.keys)
    ensures Extends(old(factory.methodMap.keys), factory.methodMap.keys)
    ensures Extends(old(factory.parameterMap.keys), factory.parameterMap.keys)
    ensures r.Ok? <==> MethodsSupported(IncludedMethods(def))
    ensures r.Err? ==> r.error == ArgumentOutOfRange
    ensures r.Ok? ==> RefersTo(factory.methodMap.keys, r.value, MethodKeys(IncludedMethods(def)))
    ensures r.Ok? && Distinct(MethodKeys(IncludedMethods(def))) ==>
      MethodsModelled(factory.methodMap.nodes, r.value, IncludedMethods(def), typeModel, factory.typeMap.keys, factory.parameterMap.keys)
    ensures TypesEvolve(k0, n0, factory.typeMap.keys, factory.typeMap.nodes, renamed, retyped)
  {
    var ms := IncludedMethods(def);
    forall m | m in ms
      ensures MethodRenames(m) <= renamed && GenericParameterKeySet(m.genericParameters) <= retyped
    {
      MethodSetsIncluded(def, m);
    }
    r := ScanMethods(factory, ms, typeModel, k0, n0, renamed, retyped);
  }

  /** `ScanMethod` on each of `ms`, in order, stopping at the first that throws. */
  method ScanMethods(factory: ModelFactory, ms: seq<Cecil.MethodDefinition>, typeModel: nat,
                     ghost k0: seq<TypeKey>, ghost n0: seq<Node<int, NetType>>,
                     ghost renamed: set<TypeKey>, ghost retyped: set<TypeKey>) returns (r: Result<seq<nat>>)
    requires factory.Separate() && factory.TypesValid() && factory.MethodsValid() && factory.ParametersValid()
    requires forall m :: m in ms ==> MethodRenames(m) <= renamed && GenericParameterKeySet(m.genericParameters) <= retyped
    requires TypesEvolve(k0, n0, factory.typeMap.keys, factory.typeMap.nodes, renamed, retyped)
    modifies factory.methodMap, factory.typeMap, factory.parameterMap
    ensures factory.TypesValid() && factory.MethodsValid() && factory.ParametersValid()
    ensures Extends(old(factory.typeMap.keys), factory.typeMap.keys)
    ensures Extends(old(factory.methodMap.keys), factory.methodMap.keys)
    ensures Extends(old(factory.parameterMap.keys), factory.parameterMap.keys)
    ensures r.Ok? <==> MethodsSupported(ms)
    ensures r.Err? ==> r.error == ArgumentOutOfRange
    ensures r.Ok? ==> RefersTo(factory.methodMap.keys, r.value, MethodKeys(ms))
    ensures r.Ok? && Distinct(MethodKeys(ms)) ==>
      MethodsModelled(factory.methodMap.nodes, r.value, ms, typeModel, factory.typeMap.keys, factory.parameterMap.keys)
    ensures TypesEvolve(k0, n0, factory.typeMap.keys, factory.typeMap.nodes, renamed, retyped)
  {
    ghost var t0, m0, p0 := factory.typeMap.keys, factory.methodMap.keys, factory.parameterMap.keys;
    var positions := [];
    for j := 0 to |ms|
      invariant factory.TypesValid() && factory.MethodsValid() && factory.ParametersValid()
      invariant Extends(t0, factory.typeMap.keys) && Extends(m0, factory.methodMap.keys) && Extends(p0, factory.parameterMap.keys)
      invariant TypesEvolve(k0, n0, factory.typeMap.keys, factory.typeMap.nodes, renamed, retyped)
      invariant RefersTo(factory.methodMap.keys, positions, MethodKeys(ms)[..j])
      invariant MethodsSupported(ms[..j])
      invariant Distinct(MethodKeys(ms)) ==>
        MethodsModelled(factory.methodMap.nodes, positions, ms, typeModel, factory.typeMap.keys, factory.parameterMap.keys)
    {
      var scanned := ScanMethodAt(factory, ms, j, positions, typeModel, t0, m0, p0, k0, n0, renamed, retyped);
      if scanned.Err? {
        return scanned;
      }
      positions := scanned.value;
    }
    assert ms[..|ms|] == ms;
    RefersToAll(factory.methodMap.keys, positions, MethodKeys(ms));
    r := Ok(positions);
  }

  /** One iteration of `ScanMethods`: the method at `j`. */
  method ScanMethodAt(factory: ModelFactory, ms: seq<Cecil.MethodDefinition>, j: nat, positions: seq<nat>, typeModel: nat,
                      ghost t0: seq<TypeKey>, ghost m0: seq<MethodKey>, ghost p0: seq<MethodParameterKey>,
                      ghost k0: seq<TypeKey>, ghost n0: seq<Node<int, NetType>>,
                      ghost renamed: set<TypeKey>, ghost retyped: set<TypeKey>) returns (r: Result<seq<nat>>)
    requires factory.Separate() && factory.TypesValid() && factory.MethodsValid() && factory.ParametersValid()
    requires j < |ms| && forall m :: m in ms ==> MethodRenames(m) <= renamed && GenericParameterKeySet(m.genericParameters) <= retyped
    requires TypesEvolve(k0, n0, factory.typeMap.keys, factory.typeMap.nodes, renamed, retyped)
    requires Extends(t0, factory.typeMap.keys) && Extends(m0, factory.methodMap.keys) && Extends(p0, factory.parameterMap.keys)
    requires RefersTo(factory.methodMap.keys, positions, MethodKeys(ms)[..j])
    requires MethodsSupported(ms[..j])
    requires Distinct(MethodKeys(ms)) ==>
      MethodsModelled(factory.methodMap.nodes, positions, ms, typeModel, factory.typeMap.keys, factory.parameterMap.keys)
    modifies factory.methodMap, factory.typeMap, factory.parameterMap
    ensures factory.TypesValid() && factory.MethodsValid() && factory.ParametersValid()
    ensures Extends(t0, factory.typeMap.keys) && Extends(m0, factory.methodMap.keys) && Extends(p0, factory.parameterMap.keys)
    ensures TypesEvolve(k0, n0, factory.typeMap.keys, factory.typeMap.nodes, renamed, retyped)
    ensures r.Err? ==> r.error == ArgumentOutOfRange && !MethodsSupported(ms)
    ensures r.Ok? ==> RefersTo(factory.methodMap.keys, r.value, MethodKeys(ms)[..j + 1])
    ensures r.Ok? ==> MethodsSupported(ms[..j + 1])
    ensures r.Ok? && Distinct(MethodKeys(ms)) ==>
      MethodsModelled(factory.methodMap.nodes, r.value, ms, typeModel, factory.typeMap.keys, factory.parameterMap.keys)
  {
    ghost var tk1, mk1, mn1, pk1 := factory.typeMap.keys, factory.methodMap.keys, factory.methodMap.nodes, factory.parameterMap.keys;
    assert ms[j] in ms;
    var scanned := ScanMethodEvolving(factory, ms[j], typeModel, k0, n0, renamed, retyped);
    if scanned.Err? {
      return Err(scanned.error);
    }
    ExtendsTransitive(t0, tk1, factory.typeMap.keys);
    ExtendsTransitive(m0, mk1, factory.methodMap.keys);
    ExtendsTransitive(p0, pk1, factory.parameterMap.keys);
    if Distinct(MethodKeys(ms)) {
      MethodsModelledStep(mk1, mn1, factory.methodMap.keys, factory.methodMap.nodes, tk1, factory.typeMap.keys,
                          pk1, factory.parameterMap.keys, positions, ms, typeModel, scanned.value);
    }
    RefersToStep(m0, mk1, factory.methodMap.keys, positions, MethodKeys(ms), j, scanned.value);
    SupportedStep(ms, j);
    r := Ok(positions + [scanned.value]);
  }

  lemma SupportedStep(ms: seq<Cecil.MethodDefinition>, j: nat)
    requires j < |ms| && MethodsSupported(ms[..j]) && MethodVisibility(ms[j].attributes).Ok?
    ensures MethodsSupported(ms[..j + 1])
  {
    assert ms[..j + 1] == ms[..j] + [ms[j]];
  }

  lemma ReadableStep(ps: seq<Cecil.PropertyDefinition>, j: nat)
    requires j < |ps| && PropertiesReadable(ps[..j]) && ps[j].getter.Some?
    ensures PropertiesReadable(ps[..j + 1])
  {
    assert ps[..j + 1] == ps[..j] + [ps[j]];
  }

  /** `CreateProperties`: `ScanProperty` on every included property, in order; the first that throws ends the scan. */
  method CreateProperties(factory: ModelFactory, def: Cecil.TypeDefinition, typeModel: nat,
                          ghost k0: seq<TypeKey>, ghost n0: seq<Node<int, NetType>>,
                          ghost renamed: set<TypeKey>, ghost retyped: set<TypeKey>) returns (r: Result<seq<nat>>)
    requires factory.Separate() && factory.TypesValid() && factory.PropertiesValid()
    requires MemberRenames(def) <= renamed
    requires TypesEvolve(k0, n0, factory.typeMap.keys, factory.typeMap.nodes, renamed, retyped)
    modifies factory.typeMap, factory.propertyMap
    ensures factory.TypesValid() && factory.PropertiesValid()
    ensures Extends(old(factory.typeMap.keys), factory.typeMap.keys)
    ensures Extends(old(factory.propertyMap.keys), factory.propertyMap.keys)
    ensures r.Ok? <==> PropertiesReadable(IncludedProperties(def))
    ensures r.Err? ==> r.error == NullReference
    ensures r.Ok? ==> RefersTo(factory.propertyMap.keys, r.value, PropertyKeys(IncludedProperties(def)))
    ensures r.Ok? && Distinct(PropertyKeys(IncludedProperties(def))) ==>
      PropertiesModelled(factory.propertyMap.nodes, r.value, IncludedProperties(def), typeModel, factory.typeMap.keys)
    ensures TypesEvolve(k0, n0, factory.typeMap.keys, factory.typeMap.nodes, renamed, retyped)
  {
    var ps := IncludedProperties(def);
    forall p | p in ps
      ensures PropertyRenames(p) <= renamed
    {
      PropertySetsIncluded(def, p);
    }
    r := ScanProperties(factory, ps, typeModel, k0, n0, renamed, retyped);
  }

  /** `ScanProperty` on each of `ps`, in order, stopping at the first that throws. */
  method ScanProperties(factory: ModelFactory, ps: seq<Cecil.PropertyDefinition>, typeModel: nat,
                        ghost k0: seq<TypeKey>, ghost n0: seq<Node<int, NetType>>,
                        ghost renamed: set<TypeKey>, ghost retyped: set<TypeKey>) returns (r: Result<seq<nat>>)
    requires factory.Separate() && factory.TypesValid() && factory.PropertiesValid()
    requires forall p :: p in ps ==> PropertyRenames(p) <= renamed
    requires TypesEvolve(k0, n0, factory.typeMap.keys, factory.typeMap.nodes, renamed, retyped)
    modifies factory.typeMap, factory.propertyMap
    ensures factory.TypesValid() && factory.PropertiesValid()
    ensures Extends(old(factory.typeMap.keys), factory.typeMap.keys)
    ensures Extends(old(factory.propertyMap.keys), factory.propertyMap.keys)
    ensures r.Ok? <==> PropertiesReadable(ps)
    ensures r.Err? ==> r.error == NullReference
    ensures r.Ok? ==> RefersTo(factory.propertyMap.keys, r.value, PropertyKeys(ps))
    ensures r.Ok? && Distinct(PropertyKeys(ps)) ==>
      PropertiesModelled(factory.propertyMap.nodes, r.value, ps, typeModel, factory.typeMap.keys)
    ensures TypesEvolve(k0, n0, factory.typeMap.keys, factory.typeMap.nodes, renamed, retyped)
  {
    ghost var t0, q0 := factory.typeMap.keys, factory.propertyMap.keys;
    var positions := [];
    for j := 0 to |ps|
      invariant factory.TypesValid() && factory.PropertiesValid()
      invariant Extends(t0, factory.typeMap.keys) && Extends(q0, factory.propertyMap.keys)
      invariant TypesEvolve(k0, n0, factory.typeMap.keys, factory.typeMap.nodes, renamed, retyped)
      invariant RefersTo(factory.propertyMap.keys, positions, PropertyKeys(ps)[..j])
      invariant PropertiesReadable(ps[..j])
      invariant Distinct(PropertyKeys(ps)) ==> PropertiesModelled(factory.propertyMap.nodes, positions, ps, typeModel, factory.typeMap.keys)
    {
      var scanned := ScanPropertyAt(factory, ps, j, positions, typeModel, t0, q0, k0, n0, renamed, retyped);
      if scanned.Err? {
        return scanned;
      }
      positions := scanned.value;
    }
    assert ps[..|ps|] == ps;
    RefersToAll(factory.propertyMap.keys, positions, PropertyKeys(ps));
    r := Ok(positions);
  }

  /** One iteration of `ScanProperties`: the property at `j`. */
  method ScanPropertyAt(factory: ModelFactory, ps: seq<Cecil.PropertyDefinition>, j: nat, positions: seq<nat>, typeModel: nat,
                        ghost t0: seq<TypeKey>, ghost q0: seq<PropertyKey>,
                        ghost k0: seq<TypeKey>, ghost n0: seq<Node<int, NetType>>,
                        ghost renamed: set<TypeKey>, ghost retyped: set<TypeKey>) returns (r: Result<seq<nat>>)
    requires factory.Separate() && factory.TypesValid() && factory.PropertiesValid()
    requires j < |ps| && forall p :: p in ps ==> PropertyRenames(p) <= renamed
    requires TypesEvolve(k0, n0, factory.typeMap.keys, factory.typeMap.nodes, renamed, retyped)
    requires Extends(t0, factory.typeMap.keys) && Extends(q0, factory.propertyMap.keys)
    requires RefersTo(factory.propertyMap.keys, positions, PropertyKeys(ps)[..j])
    requires PropertiesReadable(ps[..j])
    requires Distinct(PropertyKeys(ps)) ==> PropertiesModelled(factory.propertyMap.nodes, positions, ps, typeModel, factory.typeMap.keys)
    modifies factory.typeMap, factory.propertyMap
    ensures factory.TypesValid() && factory.PropertiesValid()
    ensures Extends(t0, factory.typeMap.keys) && Extends(q0, factory.propertyMap.keys)
    ensures TypesEvolve(k0, n0, factory.typeMap.keys, factory.typeMap.nodes, renamed, retyped)
    ensures r.Err? ==> r.error == NullReference && !PropertiesReadable(ps)
    ensures r.Ok? ==> RefersTo(factory.propertyMap.keys, r.value, PropertyKeys(ps)[..j + 1])
    ensures r.Ok? ==> PropertiesReadable(ps[..j + 1])
    ensures r.Ok? && Distinct(PropertyKeys(ps)) ==>
      PropertiesModelled(factory.propertyMap.nodes, r.value, ps, typeModel, factory.typeMap.keys)
  {
    ghost var tk1, qk1, qn1 := factory.typeMap.keys, factory.propertyMap.keys, factory.propertyMap.nodes;
    assert ps[j] in ps;
    var scanned := ScanProperty(factory, ps[j], typeModel, k0, n0, renamed, retyped);
    if scanned.Err? {
      return Err(scanned.error);
    }
    ExtendsTransitive(t0, tk1, factory.typeMap.keys);
    ExtendsTransitive(q0, qk1, factory.propertyMap.keys);
    if Distinct(PropertyKeys(ps)) {
      PropertiesModelledStep(qk1, qn1, factory.propertyMap.keys, factory.propertyMap.nodes, tk1, factory.typeMap.keys,
                             positions, ps, typeModel, scanned.value);
    }
    RefersToStep(q0, qk1, factory.propertyMap.keys, positions, PropertyKeys(ps), j, scanned.value);
    ReadableStep(ps, j);
    r := Ok(positions + [scanned.value]);
  }

  /**
   * `GetImplementedInterfaces` and `GetAttributes`: `GetTypeFromTypeReference`
   * on each reference, in order. The `Where(t => t != null)` that follows is
   * the identity here, since interning always yields a node.
   */
  method GetTypesFromReferences(factory: ModelFactory, refs: seq<Cecil.TypeReference>,
                                ghost k0: seq<TypeKey>, ghost n0: seq<Node<int, NetType>>,
                                ghost renamed: set<TypeKey>, ghost retyped: set<TypeKey>) returns (ps: seq<nat>)
    requires factory.TypesValid() && forall r :: r in refs ==> r.key in renamed
    requires TypesEvolve(k0, n0, factory.typeMap.keys, factory.typeMap.nodes, renamed, retyped)
    modifies factory.typeMap
    ensures factory.TypesValid() && Extends(old(factory.typeMap.keys), factory.typeMap.keys)
    ensures RefersTo(factory.typeMap.keys, ps, ReferenceKeys(refs))
    ensures TypesEvolve(k0, n0, factory.typeMap.keys, factory.typeMap.nodes, renamed, retyped)
  {
    ghost var start := factory.typeMap.keys;
    ghost var expected := ReferenceKeys(refs);
    ps := [];
    for j := 0 to |refs|
      invariant factory.TypesValid() && Extends(start, factory.typeMap.keys)
      invariant TypesEvolve(k0, n0, factory.typeMap.keys, factory.typeMap.nodes, renamed, retyped)
      invariant RefersTo(factory.typeMap.keys, ps, expected[..j])
    {
      ghost var k1 := factory.typeMap.keys;
      assert refs[j] in refs;
      var p := GetTypeFromTypeReference(factory, refs[j], k0, n0, renamed, retyped);
      RefersToStep(start, k1, factory.typeMap.keys, ps, expected, j, p);
      ps := ps + [p];
    }
    RefersToAll(factory.typeMap.keys, ps, expected);
  }

  /** `GetBaseType`: null without a base type, else `GetTypeFromTypeReference`. */
  method GetBaseType(factory: ModelFactory, def: Cecil.TypeDefinition,
                     ghost k0: seq<TypeKey>, ghost n0: seq<Node<int, NetType>>,
                     ghost renamed: set<TypeKey>, ghost retyped: set<TypeKey>) returns (b: Option<nat>)
    requires factory.TypesValid() && (def.baseType.Some? ==> def.baseType.value.key in renamed)
    requires TypesEvolve(k0, n0, factory.typeMap.keys, factory.typeMap.nodes, renamed, retyped)
    modifies factory.typeMap
    ensures factory.TypesValid() && Extends(old(factory.typeMap.keys), factory.typeMap.keys)
    ensures b.Some? <==> def.baseType.Some?
    ensures b.Some? ==> b.value < |factory.typeMap.keys| && factory.typeMap.keys[b.value] == def.baseType.value.key
    ensures TypesEvolve(k0, n0, factory.typeMap.keys, factory.typeMap.nodes, renamed, retyped)
  {
    if def.baseType.None? {
      b := None;
      assert factory.typeMap.keys[..|factory.typeMap.keys|] == factory.typeMap.keys;
    } else {
      var p := GetTypeFromTypeReference(factory, def.baseType.value, k0, n0, renamed, retyped);
      b := Some(p);
    }
  }

  /** A field write on the node being scanned, which the scan's evolution exempts. */
  method WriteScanned(factory: ModelFactory, t: nat, data: NetType,
                      ghost k0: seq<TypeKey>, ghost n0: seq<Node<int, NetType>>,
                      ghost renamed: set<TypeKey>, ghost retyped: set<TypeKey>)
    requires factory.TypesValid() && t < |factory.typeMap.nodes|
    requires data.name == factory.typeMap.nodes[t].data.name && data.namespace == factory.typeMap.nodes[t].data.namespace
    requires TypesEvolveBut(k0, n0, factory.typeMap.keys, factory.typeMap.nodes, renamed, retyped, t)
    modifies factory.typeMap
    ensures factory.TypesValid() && factory.typeMap.keys == old(factory.typeMap.keys)
    ensures |factory.typeMap.nodes| == |old(factory.typeMap.nodes)| && factory.typeMap.nodes[t].data == data
    ensures TypesEvolveBut(k0, n0, factory.typeMap.keys, factory.typeMap.nodes, renamed, retyped, t)
  {
    ghost var k1, n1 := factory.typeMap.keys, factory.typeMap.nodes;
    factory.UpdateType(t, data);
    TypesEvolveButWrite(k0, n0, k1, n1, renamed, retyped, t, data);
  }

  /**
   * Lines 33 to 35 of `ScanType`, the interning half: `CreateGenericTypeArgs`,
   * `CreateMethods` and `CreateProperties`, in that order.
   */
  method CollectMembers(factory: ModelFactory, def: Cecil.TypeDefinition, t: nat,
                        ghost renamed: set<TypeKey>, ghost retyped: set<TypeKey>)
    returns (failure: Option<Failure>, genericTypeArgs: seq<nat>, methods: seq<nat>, properties: seq<nat>)
    requires factory.Valid()
    requires MemberRenames(def) <= renamed && TypeRetypes(def) <= retyped
    modifies factory.typeMap, factory.methodMap, factory.parameterMap, factory.propertyMap
    ensures factory.Valid()
    ensures Extends(old(factory.typeMap.keys), factory.typeMap.keys)
    ensures Extends(old(factory.methodMap.keys), factory.methodMap.keys)
    ensures Extends(old(factory.parameterMap.keys), factory.parameterMap.keys)
    ensures Extends(old(factory.propertyMap.keys), factory.propertyMap.keys)
    ensures failure.Some? ==> failure == MembersFailure(def)
    ensures failure.None? ==> MethodsSupported(IncludedMethods(def)) && PropertiesReadable(IncludedProperties(def))
    ensures failure.None? ==>
      && RefersTo(factory.typeMap.keys, genericTypeArgs, GenericParameterKeys(def.genericParameters))
      && RefersTo(factory.methodMap.keys, methods, MethodKeys(IncludedMethods(def)))
      && RefersTo(factory.propertyMap.keys, properties, PropertyKeys(IncludedProperties(def)))
      && (Distinct(MethodKeys(IncludedMethods(def))) ==>
            MethodsModelled(factory.methodMap.nodes, methods, IncludedMethods(def), t, factory.typeMap.keys, factory.parameterMap.keys))
      && (Distinct(PropertyKeys(IncludedProperties(def))) ==>
            PropertiesModelled(factory.propertyMap.nodes, properties, IncludedProperties(def), t, factory.typeMap.keys))
      && TypesEvolve(old(factory.typeMap.keys), old(factory.typeMap.nodes), factory.typeMap.keys, factory.typeMap.nodes, renamed, retyped)
  {
    ghost var k1, n1 := factory.typeMap.keys, factory.typeMap.nodes;
    TypesEvolveNothing(k1, n1, renamed, retyped);
    genericTypeArgs := CreateGenericTypeArgs(factory, def.genericParameters, k1, n1, renamed, retyped);
    ghost var k2 := factory.typeMap.keys;
    var scannedMethods := CreateMethods(factory, def, t, k1, n1, renamed, retyped);
    ghost var k3 := factory.typeMap.keys;
    ExtendsTransitive(k1, k2, k3);
    if scannedMethods.Err? {
      ExtendsReflexive(factory.propertyMap.keys);
      return Some(scannedMethods.error), [], [], [];
    }
    methods := scannedMethods.value;
    var scannedProperties := CreateProperties(factory, def, t, k1, n1, renamed, retyped);
    ExtendsTransitive(k1, k3, factory.typeMap.keys);
    if scannedProperties.Err? {
      return Some(scannedProperties.error), [], [], [];
    }
    properties := scannedProperties.value;
    ExtendsTransitive(k2, k3, factory.typeMap.keys);
    RefersToExtended(k2, factory.typeMap.keys, genericTypeArgs, GenericParameterKeys(def.genericParameters));
    if Distinct(MethodKeys(IncludedMethods(def))) {
      MethodsModelledExtended(factory.methodMap.nodes, methods, IncludedMethods(def), t, k3, factory.typeMap.keys, factory.parameterMap.keys);
    }
    failure := None;
  }

  /**
   * Lines 33 to 36 of `ScanType`: the generic arguments, the methods, the
   * properties, then the display name read back from the node. The three
   * member writes are gathered into one after the member scans: those write
   * this node only as `TypeEvolves` allows, which leaves these fields alone.
   */
  method ScanTypeMembers(factory: ModelFactory, def: Cecil.TypeDefinition, t: nat, assembly: nat,
                         ghost k0: seq<TypeKey>, ghost n0: seq<Node<int, NetType>>,
                         ghost renamed: set<TypeKey>, ghost retyped: set<TypeKey>) returns (failure: Option<Failure>)
    requires factory.Valid()
    requires t < |factory.typeMap.nodes| && factory.typeMap.keys[t] == def.key
    requires MemberRenames(def) <= renamed && TypeRetypes(def) <= retyped
    requires TypesEvolveBut(k0, n0, factory.typeMap.keys, factory.typeMap.nodes, renamed, retyped, t)
    requires Headed(factory.typeMap.nodes[t].data, def, assembly)
    requires factory.typeMap.nodes[t].data.typeClass == GetTypeClass(def)
    modifies factory.typeMap, factory.methodMap, factory.parameterMap, factory.propertyMap
    ensures factory.Valid()
    ensures Extends(old(factory.typeMap.keys), factory.typeMap.keys)
    ensures Extends(old(factory.methodMap.keys), factory.methodMap.keys)
    ensures Extends(old(factory.parameterMap.keys), factory.parameterMap.keys)
    ensures Extends(old(factory.propertyMap.keys), factory.propertyMap.keys)
    ensures failure == MembersFailure(def)
    ensures failure.None? ==>
      MembersScanned(factory.typeMap.nodes[t].data, def, assembly, t, retyped, factory.typeMap.keys,
                     factory.methodMap.keys, factory.methodMap.nodes, factory.parameterMap.keys,
                     factory.propertyMap.keys, factory.propertyMap.nodes)
    ensures failure.None? ==> TypesEvolveBut(k0, n0, factory.typeMap.keys, factory.typeMap.nodes, renamed, retyped, t)
  {
    ghost var k1, n1 := factory.typeMap.keys, factory.typeMap.nodes;
    var genericTypeArgs, methods, properties;
    failure, genericTypeArgs, methods, properties := CollectMembers(factory, def, t, renamed, retyped);
    if failure.Some? {
      return;
    }
    MembersEvolve(k0, n0, k1, n1, factory.typeMap.keys, factory.typeMap.nodes, renamed, retyped, t, def, assembly);
    failure := RecordMembersKeepingValid(factory, def, t, assembly, genericTypeArgs, methods, properties, k0, n0, renamed, retyped);
    if failure.None? {
      MembersScannedIntro(factory.typeMap.nodes[t].data, def, assembly, t, retyped, factory.typeMap.keys,
                          factory.methodMap.keys, factory.methodMap.nodes, factory.parameterMap.keys,
                          factory.propertyMap.keys, factory.propertyMap.nodes, genericTypeArgs, methods, properties);
    }
  }

  /** Interning the members changes the scanned node only as `TypeEvolves` allows: its head and class stay. */
  lemma MembersEvolve(k0: seq<TypeKey>, n0: seq<Node<int, NetType>>, k1: seq<TypeKey>, n1: seq<Node<int, NetType>>,
                      k4: seq<TypeKey>, n4: seq<Node<int, NetType>>, renamed: set<TypeKey>, retyped: set<TypeKey>,
                      t: nat, def: Cecil.TypeDefinition, assembly: nat)
    requires t < |n1| && t < |k1| && k1[t] == def.key
    requires TypesEvolveBut(k0, n0, k1, n1, renamed, retyped, t)
    requires TypesEvolve(k1, n1, k4, n4, renamed, retyped)
    requires Headed(n1[t].data, def, assembly) && n1[t].data.typeClass == GetTypeClass(def)
    ensures t < |n4| && t < |k4| && k4[t] == def.key
    ensures TypesEvolveBut(k0, n0, k4, n4, renamed, retyped, t)
    ensures Headed(n4[t].data, def, assembly)
    ensures def.key !in retyped ==> n4[t].data.typeClass == GetTypeClass(def)
  {
    TypesEvolveAt(k1, n1, k4, n4, renamed, retyped, t);
    TypesEvolveButStep(k0, n0, k1, n1, k4, n4, renamed, retyped, renamed, retyped, t);
  }

  /** The facts `CollectMembers` and `RecordMembers` leave, gathered into `MembersScanned`. */
  lemma MembersScannedIntro(n: NetType, def: Cecil.TypeDefinition, assembly: nat, t: nat, retyped: set<TypeKey>,
                            typeKeys: seq<TypeKey>, methodKeys: seq<MethodKey>, methods: seq<Node<int, NetMethod>>,
                            parameterKeys: seq<MethodParameterKey>, propertyKeys: seq<PropertyKey>,
                            properties: seq<Node<int, NetProperty>>, genericTypeArgs: seq<nat>, ms: seq<nat>, qs: seq<nat>)
    requires Headed(n, def, assembly)
    requires n.genericTypeArgs == genericTypeArgs && n.methods == ms && n.properties == qs
    requires def.key !in retyped ==> n.typeClass == GetTypeClass(def)
    requires DisplayName(def.key.name, |def.genericParameters| > 0) == Ok(n.displayName)
    requires RefersTo(typeKeys, genericTypeArgs, GenericParameterKeys(def.genericParameters))
    requires RefersTo(methodKeys, ms, MethodKeys(IncludedMethods(def)))
    requires RefersTo(propertyKeys, qs, PropertyKeys(IncludedProperties(def)))
    requires Distinct(MethodKeys(IncludedMethods(def))) ==>
      MethodsModelled(methods, ms, IncludedMethods(def), t, typeKeys, parameterKeys)
    requires Distinct(PropertyKeys(IncludedProperties(def))) ==>
      PropertiesModelled(properties, qs, IncludedProperties(def), t, typeKeys)
    ensures MembersScanned(n, def, assembly, t, retyped, typeKeys, methodKeys, methods, parameterKeys, propertyKeys, properties)
  {
  }

  /** `RecordMembers` on a valid factory: it writes only the type map, so the other maps stay valid. */
  method RecordMembersKeepingValid(factory: ModelFactory, def: Cecil.TypeDefinition, t: nat, assembly: nat,
                                   genericTypeArgs: seq<nat>, methods: seq<nat>, properties: seq<nat>,
                                   ghost k0: seq<TypeKey>, ghost n0: seq<Node<int, NetType>>,
                                   ghost renamed: set<TypeKey>, ghost retyped: set<TypeKey>) returns (failure: Option<Failure>)
    requires factory.Valid()
    requires t < |factory.typeMap.nodes| && factory.typeMap.keys[t] == def.key
    requires TypesEvolveBut(k0, n0, factory.typeMap.keys, factory.typeMap.nodes, renamed, retyped, t)
    requires Headed(factory.typeMap.nodes[t].data, def, assembly)
    requires def.key !in retyped ==> factory.typeMap.nodes[t].data.typeClass == GetTypeClass(def)
    requires |genericTypeArgs| == |def.genericParameters|
    modifies factory.typeMap
    ensures factory.Valid() && factory.typeMap.keys == old(factory.typeMap.keys)
    ensures failure == match DisplayName(def.key.name, |def.genericParameters| > 0)
                         case Err(e) => Some(e)
                         case Ok(_) => None
    ensures failure.None? ==>
      var n := factory.typeMap.nodes[t].data;
      && Headed(n, def, assembly)
      && n.genericTypeArgs == genericTypeArgs && n.methods == methods && n.properties == properties
      && (def.key !in retyped ==> n.typeClass == GetTypeClass(def))
      && DisplayName(def.key.name, |def.genericParameters| > 0) == Ok(n.displayName)
    ensures failure.None? ==> TypesEvolveBut(k0, n0, factory.typeMap.keys, factory.typeMap.nodes, renamed, retyped, t)
  {
    failure := RecordMembers(factory, def, t, assembly, genericTypeArgs, methods, properties, k0, n0, renamed, retyped);
  }

  /**
   * Lines 33 to 36 of `ScanType`, the writing half: the member lists, then
   * the display name computed from the node's name and generic arguments.
   */
  method RecordMembers(factory: ModelFactory, def: Cecil.TypeDefinition, t: nat, assembly: nat,
                       genericTypeArgs: seq<nat>, methods: seq<nat>, properties: seq<nat>,
                       ghost k0: seq<TypeKey>, ghost n0: seq<Node<int, NetType>>,
                       ghost renamed: set<TypeKey>, ghost retyped: set<TypeKey>) returns (failure: Option<Failure>)
    requires factory.TypesValid()
    requires t < |factory.typeMap.nodes| && factory.typeMap.keys[t] == def.key
    requires TypesEvolveBut(k0, n0, factory.typeMap.keys, factory.typeMap.nodes, renamed, retyped, t)
    requires Headed(factory.typeMap.nodes[t].data, def, assembly)
    requires def.key !in retyped ==> factory.typeMap.nodes[t].data.typeClass == GetTypeClass(def)
    requires |genericTypeArgs| == |def.genericParameters|
    modifies factory.typeMap
    ensures factory.TypesValid() && factory.typeMap.keys == old(factory.typeMap.keys)
    ensures failure == match DisplayName(def.key.name, |def.genericParameters| > 0)
                         case Err(e) => Some(e)
                         case Ok(_) => None
    ensures failure.None? ==>
      var n := factory.typeMap.nodes[t].data;
      && Headed(n, def, assembly)
      && n.genericTypeArgs == genericTypeArgs && n.methods == methods && n.properties == properties
      && (def.key !in retyped ==> n.typeClass == GetTypeClass(def))
      && DisplayName(def.key.name, |def.genericParameters| > 0) == Ok(n.displayName)
    ensures failure.None? ==> TypesEvolveBut(k0, n0, factory.typeMap.keys, factory.typeMap.nodes, renamed, retyped, t)
  {
    var model := factory.typeMap.nodes[t].data;
    WriteScanned(factory, t, model.(genericTypeArgs := genericTypeArgs, methods := methods, properties := properties),
                 k0, n0, renamed, retyped);
    var named := factory.typeMap.nodes[t].data;
    var displayName := DisplayName(named.name, named.IsGeneric());
    if displayName.Err? {
      return Some(displayName.error);
    }
    WriteScanned(factory, t, named.(displayName := displayName.value), k0, n0, renamed, retyped);
    failure := None;
  }

  /**
   * Lines 37 to 39 of `ScanType`: the interfaces, the attributes and the base
   * type, gathered into one write after the interning calls.
   */
  method ScanTypeRelations(factory: ModelFactory, def: Cecil.TypeDefinition, t: nat,
                           ghost k0: seq<TypeKey>, ghost n0: seq<Node<int, NetType>>,
                           ghost renamed: set<TypeKey>, ghost retyped: set<TypeKey>)
    requires factory.TypesValid()
    requires t < |factory.typeMap.nodes| && factory.typeMap.keys[t] == def.key && RelationRenames(def) <= renamed
    requires TypesEvolveBut(k0, n0, factory.typeMap.keys, factory.typeMap.nodes, renamed, retyped, t)
    modifies factory.typeMap
    ensures factory.TypesValid() && Extends(old(factory.typeMap.keys), factory.typeMap.keys)
    ensures t < |factory.typeMap.nodes|
    ensures var before, n := old(factory.typeMap.nodes[t].data), factory.typeMap.nodes[t].data;
      && Related(n, def, factory.typeMap.keys)
      && n.(implements := before.implements, attributes := before.attributes, baseType := before.baseType,
            displayName := before.displayName) == before
      && (def.key !in RelationRenames(def) ==> n.displayName == before.displayName)
    ensures TypesEvolveBut(k0, n0, factory.typeMap.keys, factory.typeMap.nodes, renamed, retyped, t)
  {
    ghost var k1, n1 := factory.typeMap.keys, factory.typeMap.nodes;
    ghost var relations := RelationRenames(def);
    TypesEvolveNothing(k1, n1, relations, {});
    var implements := GetTypesFromReferences(factory, def.interfaces, k1, n1, relations, {});
    ghost var k2 := factory.typeMap.keys;
    var attributes := GetTypesFromReferences(factory, def.customAttributes, k1, n1, relations, {});
    ghost var k3 := factory.typeMap.keys;
    var baseType := GetBaseType(factory, def, k1, n1, relations, {});
    ghost var k4, n4 := factory.typeMap.keys, factory.typeMap.nodes;
    TypesEvolveAt(k1, n1, k4, n4, relations, {}, t);
    TypesEvolveButStep(k0, n0, k1, n1, k4, n4, renamed, retyped, relations, {}, t);
    var model := factory.typeMap.nodes[t].data;
    WriteScanned(factory, t, model.(implements := implements, attributes := attributes, baseType := baseType),
                 k0, n0, renamed, retyped);
    ExtendsTransitive(k2, k3, k4);
    RefersToExtended(k2, k4, implements, ReferenceKeys(def.interfaces));
    RefersToExtended(k3, k4, attributes, ReferenceKeys(def.customAttributes));
  }

  /**
   * Lines 26 to 32 of `ScanType`: intern the type, then write its class,
   * assembly, visibility and the three flags; an unsupported visibility
   * throws ArgumentOutOfRangeException.
   */
  method HeadType(factory: ModelFactory, def: Cecil.TypeDefinition, assembly: nat,
                  ghost k0: seq<TypeKey>, ghost n0: seq<Node<int, NetType>>,
                  ghost renamed: set<TypeKey>, ghost retyped: set<TypeKey>) returns (r: Result<nat>)
    requires factory.TypesValid() && def.key in renamed
    requires TypesEvolve(k0, n0, factory.typeMap.keys, factory.typeMap.nodes, renamed, retyped)
    modifies factory.typeMap
    ensures factory.TypesValid() && Extends(old(factory.typeMap.keys), factory.typeMap.keys)
    ensures r.Ok? <==> TypeVisibility(def.attributes).Ok?
    ensures r.Err? ==> TypeVisibility(def.attributes) == Err(r.error)
    ensures r.Ok? ==> r.value < |factory.typeMap.nodes| && factory.typeMap.keys[r.value] == def.key
    ensures r.Ok? ==> Headed(factory.typeMap.nodes[r.value].data, def, assembly)
    ensures r.Ok? ==> factory.typeMap.nodes[r.value].data.typeClass == GetTypeClass(def)
    ensures r.Ok? ==> TypesEvolveBut(k0, n0, factory.typeMap.keys, factory.typeMap.nodes, renamed, retyped, r.value)
  {
    var t := InternTypeEvolving(factory, def.key, k0, n0, renamed, retyped);
    TypesEvolveButFrom(k0, n0, factory.typeMap.keys, factory.typeMap.nodes, renamed, retyped, t);
    var visibility := TypeVisibility(def.attributes);
    if visibility.Err? {
      return Err(visibility.error);
    }
    var model := factory.typeMap.nodes[t].data;
    WriteScanned(factory, t, model.(typeClass := GetTypeClass(def), assembly := Some(assembly), visibility := visibility.value,
                                    isStatic := IsStatic(def), isAbstract := IsAbstract(def), isSealed := IsSealed(def)),
                 k0, n0, renamed, retyped);
    r := Ok(t);
  }

  /** Lines 33 to 39 of `ScanType`, on the node `HeadType` interned at `t`. */
  method ScanTypeAt(factory: ModelFactory, def: Cecil.TypeDefinition, t: nat, assembly: nat,
                    ghost k0: seq<TypeKey>, ghost n0: seq<Node<int, NetType>>) returns (failure: Option<Failure>)
    requires factory.Valid()
    requires t < |factory.typeMap.nodes| && factory.typeMap.keys[t] == def.key
    requires TypesEvolveBut(k0, n0, factory.typeMap.keys, factory.typeMap.nodes, TypeRenames(def), TypeRetypes(def), t)
    requires Headed(factory.typeMap.nodes[t].data, def, assembly)
    requires factory.typeMap.nodes[t].data.typeClass == GetTypeClass(def)
    modifies factory.typeMap, factory.methodMap, factory.parameterMap, factory.propertyMap
    ensures factory.Valid()
    ensures Extends(old(factory.typeMap.keys), factory.typeMap.keys)
    ensures Extends(old(factory.methodMap.keys), factory.methodMap.keys)
    ensures Extends(old(factory.parameterMap.keys), factory.parameterMap.keys)
    ensures Extends(old(factory.propertyMap.keys), factory.propertyMap.keys)
    ensures failure == MembersFailure(def)
    ensures failure.None? ==>
      TypeScanned(factory.typeMap.nodes[t].data, def, assembly, t, factory.typeMap.keys,
                  factory.methodMap.keys, factory.methodMap.nodes, factory.parameterMap.keys,
                  factory.propertyMap.keys, factory.propertyMap.nodes)
    ensures failure.None? ==> TypesEvolveBut(k0, n0, factory.typeMap.keys, factory.typeMap.nodes, TypeRenames(def), TypeRetypes(def), t)
  {
    ghost var start := factory.typeMap.keys;
    failure := ScanTypeMembers(factory, def, t, assembly, k0, n0, TypeRenames(def), TypeRetypes(def));
    if failure.Some? {
      return;
    }
    ghost var tk := factory.typeMap.keys;
    ghost var membered := factory.typeMap.nodes[t].data;
    ScanTypeRelations(factory, def, t, k0, n0, TypeRenames(def), TypeRetypes(def));
    RelationsCompleteScan(membered, factory.typeMap.nodes[t].data, def, assembly, t, tk, factory.typeMap.keys,
                          factory.methodMap.keys, factory.methodMap.nodes, factory.parameterMap.keys,
                          factory.propertyMap.keys, factory.propertyMap.nodes);
    ExtendsTransitive(start, tk, factory.typeMap.keys);
  }

  /**
   * `ScanType`: intern the type, then set its class, assembly, visibility and
   * flags (an unsupported visibility throws first: those writes are gathered
   * after the check), its members and display name, then its relations.
   * Every other type node evolves as `TypeEvolves` allows, against the keys
   * this scan interns.
   */
  method ScanType(factory: ModelFactory, def: Cecil.TypeDefinition, assembly: nat) returns (r: Result<nat>)
    requires factory.Valid()
    modifies factory.typeMap, factory.methodMap, factory.parameterMap, factory.propertyMap
    ensures factory.Valid()
    ensures Extends(old(factory.typeMap.keys), factory.typeMap.keys)
    ensures Extends(old(factory.methodMap.keys), factory.methodMap.keys)
    ensures Extends(old(factory.parameterMap.keys), factory.parameterMap.keys)
    ensures Extends(old(factory.propertyMap.keys), factory.propertyMap.keys)
    ensures r.Ok? <==> ScanTypeFailure(def).None?
    ensures r.Err? ==> ScanTypeFailure(def) == Some(r.error)
    ensures r.Ok? ==> r.value < |factory.typeMap.nodes| && factory.typeMap.keys[r.value] == def.key
    ensures r.Ok? ==>
      TypeScanned(factory.typeMap.nodes[r.value].data, def, assembly, r.value, factory.typeMap.keys,
                  factory.methodMap.keys, factory.methodMap.nodes, factory.parameterMap.keys,
                  factory.propertyMap.keys, factory.propertyMap.nodes)
    ensures r.Ok? ==> TypesEvolveBut(old(factory.typeMap.keys), old(factory.typeMap.nodes), factory.typeMap.keys, factory.typeMap.nodes,
                                     TypeRenames(def), TypeRetypes(def), r.value)
  {
    ghost var k0, n0 := factory.typeMap.keys, factory.typeMap.nodes;
    ghost var renamed, retyped := TypeRenames(def), TypeRetypes(def);
    TypesEvolveNothing(k0, n0, renamed, retyped);
    var head := HeadType(factory, def, assembly, k0, n0, renamed, retyped);
    if head.Err? {
      ExtendsReflexive(factory.methodMap.keys);
      ExtendsReflexive(factory.parameterMap.keys);
      ExtendsReflexive(factory.propertyMap.keys);
      return head;
    }
    var t := head.value;
    ghost var k1 := factory.typeMap.keys;
    var failure := ScanTypeAt(factory, def, t, assembly, k0, n0);
    ExtendsTransitive(k0, k1, factory.typeMap.keys);
    if failure.Some? {
      return Err(failure.value);
    }
    r := Ok(t);
  }
}

/**
 * DotnetScanner/Scanner/MethodScanner.cs: one method definition of a
 * System.Reflection.Metadata reader becomes a method node of the string-keyed
 * factory, its signature decoded by the older `SignatureTypeProvider`.
 */
module DotnetMethodScanner {
  import opened Wrappers
  import opened Strings
  import opened Srm
  import opened Flags
  import MA = MethodAttributes
  import opened ScannerConstants
  import opened NetModelFactory
  import NetSignatures
  import opened DotnetIds
  import opened DotnetModel
  import opened DotnetNodeFactory
  import opened DotnetSignatures
  import opened Graph

  /**
   * `IncludeMethod`: public methods only; of those, a method marked
   * SpecialName is kept only when its name is one of `SpecialNames` (the
   * constructor and the operators). `HashSet.Contains(null)` is false.
   */
  predicate IncludeMethod(reader: MetadataReader, m: MethodDefinition)
    requires ValidString(reader, m.name)
  {
    var name := GetString(reader, m.name);
    && (m.attributes & MA.MemberAccessMask) == MA.Public
    && ((name.Some? && IsMethodSpecialName(name.value)) || !HasFlag(m.attributes, MA.SpecialName))
  }

  predicate IsAbstract(m: MethodDefinition) { HasFlag(m.attributes, MA.Abstract) }

  predicate IsStatic(m: MethodDefinition) { HasFlag(m.attributes, MA.Static) }

  /** `IsSealed`: a method is sealed when it is `final`. */
  predicate IsSealed(m: MethodDefinition) { HasFlag(m.attributes, MA.Final) }

  /** A method the scan keeps is public: private, internal and protected methods give no node. */
  lemma IncludedMethodsArePublic(reader: MetadataReader, m: MethodDefinition)
    requires ValidString(reader, m.name) && IncludeMethod(reader, m)
    ensures (m.attributes & MA.MemberAccessMask) == MA.Public
  {
  }

  /** A public constructor or operator is kept although the compiler marks it SpecialName. */
  lemma ListedSpecialNamesAreKept(reader: MetadataReader, m: MethodDefinition)
    requires ValidString(reader, m.name) && (m.attributes & MA.MemberAccessMask) == MA.Public
    requires GetString(reader, m.name) == Some(".ctor") || GetString(reader, m.name) == Some("op_Addition")
    ensures IncludeMethod(reader, m)
  {
  }

  /**
   * Property and event accessors ("get_", "set_", "add_", "remove_") carry
   * SpecialName and are not listed, so they are dropped.
   */
  lemma AccessorsAreDropped(reader: MetadataReader, m: MethodDefinition)
    requires ValidString(reader, m.name) && HasFlag(m.attributes, MA.SpecialName)
    requires GetString(reader, m.name).Some?
    requires var n := GetString(reader, m.name).value;
      StartsWith(n, "get_") || StartsWith(n, "set_") || StartsWith(n, "add_") || StartsWith(n, "remove_")
    ensures !IncludeMethod(reader, m)
  {
    var n := GetString(reader, m.name).value;
    ListedNamesStart(n);
    assert n[0] == n[..1][0];
  }

  /** An ordinary public method is kept whatever its name: only the SpecialName flag sends a name through the list. */
  lemma OrdinaryPublicMethodsAreKept(reader: MetadataReader, m: MethodDefinition)
    requires ValidString(reader, m.name) && (m.attributes & MA.MemberAccessMask) == MA.Public
    requires !HasFlag(m.attributes, MA.SpecialName)
    ensures IncludeMethod(reader, m)
  {
  }

  /** `CreateSignatureString`: "name(p1,...,pn):return", a null name interpolated as empty. */
  function SignatureString(name: Option<string>, parameterIds: seq<string>, returnId: string): (s: string)
    ensures |s| >= |Text(name)| + 3
  {
    Text(name) + "(" + Join(",", parameterIds) + "):" + returnId
  }

  /** The signature string starts with the method name, up to the first parenthesis. */
  lemma SignatureStringsKeepNames(n1: string, ps1: seq<string>, r1: string, n2: string, ps2: seq<string>, r2: string)
    requires '(' !in n1 && '(' !in n2
    requires SignatureString(Some(n1), ps1, r1) == SignatureString(Some(n2), ps2, r2)
    ensures n1 == n2
  {
    var s := SignatureString(Some(n1), ps1, r1);
    assert s == n1 + ("(" + Join(",", ps1) + "):" + r1);
    assert s == n2 + ("(" + Join(",", ps2) + "):" + r2);
    SamePrefixBeforeParen(n1, "(" + Join(",", ps1) + "):" + r1, n2, "(" + Join(",", ps2) + "):" + r2);
  }

  /** Two strings without `(`, each followed by text starting with `(`, are equal when the concatenations are. */
  lemma SamePrefixBeforeParen(n1: string, t1: string, n2: string, t2: string)
    requires '(' !in n1 && '(' !in n2
    requires |t1| > 0 && t1[0] == '(' && |t2| > 0 && t2[0] == '('
    requires n1 + t1 == n2 + t2
    ensures n1 == n2
  {
    var s := n1 + t1;
    assert forall i :: 0 <= i < |n1| ==> s[i] == n1[i] && n1[i] in n1;
    assert forall i :: 0 <= i < |n2| ==> s[i] == n2[i] && n2[i] in n2;
    assert s[|n1|] == '(' && s[|n2|] == '(';
    assert n1 == s[..|n1|] && n2 == s[..|n2|];
  }

  /** The parent whose children the parameter types are, for `SignatureIds`. */
  function SignatureParent(m: MethodDefinition): SignatureType
  {
    FunctionPointer(m.signature.returnType, m.signature.parameterTypes)
  }

  lemma ParametersBelow(reader: MetadataReader, m: MethodDefinition)
    requires ValidMethod(reader, m)
    ensures NetSignatures.Below(reader, m.signature.parameterTypes, SignatureParent(m))
  {
  }

  /** The id the return type is interned under, or the exception decoding it throws. */
  function ReturnId(reader: MetadataReader, m: MethodDefinition): Result<string>
    requires WellFormed(reader) && ValidMethod(reader, m)
  {
    SignatureId(reader, m.signature.returnType)
  }

  /** The ids the parameter types are interned under, or the first exception. */
  function ParameterIds(reader: MetadataReader, m: MethodDefinition): (r: Result<seq<string>>)
    requires WellFormed(reader) && ValidMethod(reader, m)
    ensures r.Ok? ==> |r.value| == |m.signature.parameterTypes|
  {
    ParametersBelow(reader, m);
    SignatureIds(reader, m.signature.parameterTypes, SignatureParent(m))
  }

  /**
   * The exception `ScanMethod` throws on an included method, if any: decoding
   * the return type, then the parameter types, then `CreateMethodModel` with
   * a null name.
   */
  function MethodFailure(reader: MetadataReader, m: MethodDefinition): Option<Failure>
    requires WellFormed(reader) && ValidMethod(reader, m)
  {
    var ret := ReturnId(reader, m);
    var ps := ParameterIds(reader, m);
    if ret.Err? then Some(ret.error)
    else if ps.Err? then Some(ps.error)
    else if GetString(reader, m.name).None? then Some(ArgumentNull)
    else None
  }

  /** What `ScanMethod` leaves in a method node: every property it sets, read back. */
  ghost predicate MethodModelled(n: NetMethod, reader: MetadataReader, m: MethodDefinition, typeKeys: seq<string>)
    requires WellFormed(reader) && ValidMethod(reader, m)
  {
    var ret := ReturnId(reader, m);
    var ps := ParameterIds(reader, m);
    && n.name == GetString(reader, m.name)
    && n.isAbstract == IsAbstract(m) && n.isStatic == IsStatic(m) && n.isSealed == IsSealed(m)
    && ret.Ok? && n.returnType.Some? && n.returnType.value < |typeKeys| && typeKeys[n.returnType.value] == ret.value
    && ps.Ok? && RefersTo(typeKeys, n.parameterTypes, ps.value)
  }

  /** A node whose types were interned before more types were appended is still modelled. */
  lemma MethodModelledExtended(n: NetMethod, reader: MetadataReader, m: MethodDefinition, k0: seq<string>, k1: seq<string>)
    requires WellFormed(reader) && ValidMethod(reader, m)
    requires MethodModelled(n, reader, m, k0) && Extends(k0, k1)
    ensures MethodModelled(n, reader, m, k1)
  {
    ExtendsKeeps(k0, k1, n.returnType.value);
    RefersToExtended(k0, k1, n.parameterTypes, ParameterIds(reader, m).value);
  }

  /** Growing a map and then writing one node leaves every other node grown. */
  lemma GrowsThenWrite<D>(n0: seq<Node<string, D>>, n1: seq<Node<string, D>>, blank: D, q: nat, node: Node<string, D>)
    requires Grows(n0, n1, blank) && q < |n1|
    ensures GrowsBut(n0, n1[q := node], blank, q)
  {
  }

  /** The signature half of `ScanMethod`: `DecodeSignature` on a fresh provider over the factory. */
  method DecodeSignature(reader: MetadataReader, factory: NodeFactory, m: MethodDefinition)
    returns (r: Result<(nat, seq<nat>)>)
    requires factory.Valid() && WellFormed(reader) && ValidMethod(reader, m)
    modifies factory.typeMap
    ensures factory.Valid() && Extends(old(factory.typeMap.keys), factory.typeMap.keys)
    ensures Grows(old(factory.typeMap.nodes), factory.typeMap.nodes, NewType())
    ensures r.Ok? <==> ReturnId(reader, m).Ok? && ParameterIds(reader, m).Ok?
    ensures ReturnId(reader, m).Err? ==> r == Err(ReturnId(reader, m).error)
    ensures ReturnId(reader, m).Ok? && ParameterIds(reader, m).Err? ==> r == Err(ParameterIds(reader, m).error)
    ensures r.Ok? ==> r.value.0 < |factory.typeMap.keys| && factory.typeMap.keys[r.value.0] == ReturnId(reader, m).value
    ensures r.Ok? ==> RefersTo(factory.typeMap.keys, r.value.1, ParameterIds(reader, m).value)
  {
    ParametersBelow(reader, m);
    ghost var k0, n0 := factory.typeMap.keys, factory.typeMap.nodes;
    var provider := new SignatureTypeProvider(factory);
    var ret := provider.Decode(reader, m.signature.returnType);
    if ret.Err? { return Err(ret.error); }
    ghost var k1, n1 := factory.typeMap.keys, factory.typeMap.nodes;
    var ps := provider.DecodeAll(reader, m.signature.parameterTypes, SignatureParent(m));
    ExtendsTransitive(k0, k1, factory.typeMap.keys);
    GrowsTransitive(n0, n1, factory.typeMap.nodes, NewType());
    if ps.Err? { return Err(ps.error); }
    ExtendsKeeps(k1, factory.typeMap.keys, ret.value);
    r := Ok((ret.value, ps.value));
  }

  /**
   * The tail of `ScanMethod` once the signature is decoded:
   * `CreateMethodModel` under the method's name (a null name throws
   * ArgumentNullException), then the property writes.
   */
  method RecordMethod(reader: MetadataReader, factory: NodeFactory, m: MethodDefinition,
                      returnType: nat, parameterTypes: seq<nat>) returns (r: Result<nat>)
    requires factory.Valid() && WellFormed(reader) && ValidMethod(reader, m)
    requires ReturnId(reader, m).Ok? && ParameterIds(reader, m).Ok?
    requires returnType < |factory.typeMap.keys| && factory.typeMap.keys[returnType] == ReturnId(reader, m).value
    requires RefersTo(factory.typeMap.keys, parameterTypes, ParameterIds(reader, m).value)
    modifies factory.methodMap
    ensures factory.Valid() && unchanged(factory.typeMap)
    ensures Extends(old(factory.methodMap.keys), factory.methodMap.keys)
    ensures r.Ok? <==> GetString(reader, m.name).Some?
    ensures r.Err? ==> r.error == ArgumentNull
    ensures r.Err? ==> factory.methodMap.keys == old(factory.methodMap.keys) && factory.methodMap.nodes == old(factory.methodMap.nodes)
    ensures r.Ok? ==>
      && r.value < |factory.methodMap.nodes|
      && Some(factory.methodMap.keys[r.value]) == GetString(reader, m.name)
      && MethodModelled(factory.methodMap.nodes[r.value].data, reader, m, factory.typeMap.keys)
      && GrowsBut(old(factory.methodMap.nodes), factory.methodMap.nodes, NewMethod(), r.value)
  {
    var name := GetString(reader, m.name);
    ghost var mk0, mn0, mi0 := factory.methodMap.keys, factory.methodMap.nodes, factory.methodMap.index;
    r := factory.CreateMethodModel(name);
    InternedGrows(mk0, mn0, mi0, factory.methodMap.keys, factory.methodMap.nodes, name, NewMethod(), r);
    if r.Err? {
      return;
    }
    ghost var mn1 := factory.methodMap.nodes;
    var model := factory.methodMap.nodes[r.value].data;
    factory.methodMap.Update(r.value, model.(name := name, isAbstract := IsAbstract(m), isStatic := IsStatic(m),
                                             isSealed := IsSealed(m), returnType := Some(returnType),
                                             parameterTypes := parameterTypes));
    GrowsThenWrite(mn0, mn1, NewMethod(), r.value, factory.methodMap.nodes[r.value]);
  }

  /**
   * `ScanMethod`: null (`Ok(None)`) for a method `IncludeMethod` drops;
   * otherwise the decoded signature, the signature string (computed and not
   * used), and a method node interned under the method's name with its name,
   * flags, return type and parameter types written.
   */
  method ScanMethod(reader: MetadataReader, factory: NodeFactory, m: MethodDefinition) returns (r: Result<Option<nat>>)
    requires factory.Valid() && WellFormed(reader) && ValidMethod(reader, m)
    modifies factory.typeMap, factory.methodMap
    ensures factory.Valid()
    ensures Extends(old(factory.typeMap.keys), factory.typeMap.keys)
    ensures Grows(old(factory.typeMap.nodes), factory.typeMap.nodes, NewType())
    ensures Extends(old(factory.methodMap.keys), factory.methodMap.keys)
    ensures !IncludeMethod(reader, m) ==> r == Ok(None) && unchanged(factory.typeMap) && unchanged(factory.methodMap)
    ensures IncludeMethod(reader, m) && MethodFailure(reader, m).Some? ==> r == Err(MethodFailure(reader, m).value)
    ensures r.Err? ==> factory.methodMap.keys == old(factory.methodMap.keys) && factory.methodMap.nodes == old(factory.methodMap.nodes)
    ensures IncludeMethod(reader, m) && MethodFailure(reader, m).None? ==> r.Ok? && r.value.Some?
    ensures r.Ok? && r.value.Some? ==>
      && r.value.value < |factory.methodMap.nodes|
      && Some(factory.methodMap.keys[r.value.value]) == GetString(reader, m.name)
      && MethodModelled(factory.methodMap.nodes[r.value.value].data, reader, m, factory.typeMap.keys)
      && GrowsBut(old(factory.methodMap.nodes), factory.methodMap.nodes, NewMethod(), r.value.value)
  {
    if !IncludeMethod(reader, m) {
      return Ok(None);
    }
    var name := GetString(reader, m.name);
    var signature := DecodeSignature(reader, factory, m);
    if signature.Err? {
      return Err(signature.error);
    }
    var (returnType, parameterTypes) := signature.value;
    var parameterIds := IdsAt(factory.typeMap.keys, parameterTypes);
    var signatureString := SignatureString(name, parameterIds, factory.typeMap.keys[returnType]);
    var p := RecordMethod(reader, factory, m, returnType, parameterTypes);
    if p.Err? {
      return Err(p.error);
    }
    r := Ok(Some(p.value));
  }
}

# architecture-analyzer, modelled in Dafny

architecture-analyzer reads compiled .NET assemblies (ECMA-335 CLI metadata)
and rebuilds their structure as a graph: assemblies, types, methods,
parameters and properties as nodes, and DEPENDS_ON, DEFINES_TYPE, EXTENDS,
IMPLEMENTS, DEFINES_METHOD and similar relationships as edges. This project
models the scanning core and the edge derivation of both generations of the
scanner, each in its own modules and kept apart as in the repository:

- **DotnetScanner**, the older generation, works on System.Reflection.Metadata.
  It keys nodes by string ids (`"System.Int32"`, `"Int32[]"`) and writes nodes
  and edges to the database while it scans (`DotnetIds`, `DotnetSignatures`,
  `DotnetNodeFactory`, `DotnetModelFactory`, `DotnetModel`,
  `DotnetMethodScanner`, `DotnetTypeScanner`, `DotnetAssemblyScanner`,
  `DotnetReflectionScanner`, `DotnetReflectionLaws`).
- **Net.Scanner**, the newer generation, works on Mono.Cecil. It keys nodes by
  `TypeKey` (namespace, name), fills a model factory during the scan and
  derives every edge afterwards in `GraphBuilder` (`NetTypeKeys`,
  `TypeKeyExtensions`, `NetMetadata`, `NetSignatures`, `NetModel`,
  `NetModelFactory`, `NetVisibility`, `ScannerConstants`, `NetAbstractScanner`,
  `NetPropertyScanner`, `NetMethodScanner`, `NetTypeScanner`,
  `NetAssemblyScanner`, `NetGraphBuilder`, `NetGraphLaws`).

Shared pieces: `Graph` (node equality by kind and Id, and the graph store as
an append-only log of `Clear`, `CreateNode` and `CreateRelationship` events),
`CountedMap` (the memoising `key → node` map with its fresh-id counter),
`ArrayShapes` (the array-shape rendering of section 23.2.13 of ECMA-335
Partition II), `Linq` (`Where`, `SelectMany`, `Except` with set semantics),
`Strings`, `Wrappers` (nullable values and thrown exceptions as
`Option`/`Result`), `TypeAttributes`/`Srm` (attribute bit-fields and the
System.Reflection.Metadata tables) and `Cecil` (the Mono.Cecil definitions the
newer scanners read).

How the model is built:

- Every model factory is a class. Its arenas hold the keys, the node records
  and the dictionary index. Interning is a method that returns the stored node
  on a hit and appends one fresh node on a miss. The field writes the scanners
  make on interned nodes are writes to the arena.
  - Newer generation: a node reference is a position in an arena, and a miss
    gives the fresh node the next id of the factory's counter.
  - Older generation (`DotnetNodeFactory.IdMap`): a node reference is a
    position into a string-keyed map, and a node's id is its key. There is no
    counter.
- Scanners are methods over the factory. A scan that throws returns `Err`
  with the exception (`NullReference`, `ArgumentNull`,
  `ArgumentOutOfRange`, `NotImplemented`). Each scan is proved against a
  specification function of its input: the first failure, the keys it
  interns, and the node contents it leaves.
- Signature decoding follows the element kinds of section 23.2.12 of
  ECMA-335 Partition II. A signature blob is a sequence of elements that the
  provider's callbacks walk recursively. Each callback is proved against the
  key or id the element denotes (`SignatureKey`, `SignatureId`).
- Edge derivation appends to the transaction log. Each `Connect*` method is
  proved to append exactly the events of a specification function. Separate
  law modules prove what those events are: the IMPLEMENTS subtraction
  (`Implements \ (Base.Implements ∪ ⋃ J.Implements)`, distinct, in first
  occurrence order), the order of the build phases, and how often each node
  is created.

Where the repository's tests disagree with the code, the model follows the
code. Where the code does not compile as written, the model makes the smallest
choice that lets it run:

- ArchitectureAnalyzer.DotnetScanner/Model/NodeFactory.cs:50 creates a node
  with `new TNode { Id = id }`, which assigns the string key to the `long Id`
  of ArchitectureAnalyzer.Core/Graph/Node.cs:6. The model gives the older
  generation's nodes a string id (`Node<string, D>`), so a node's id is the
  key it was interned under.
- The newer generation has no visibility filter. `IncludeType` at
  ArchitectureAnalyzer.Net.Scanner/AssemblyScanner.cs:55-63 and
  `IncludeMethod` at ArchitectureAnalyzer.Net.Scanner/TypeScanner.cs:125-139
  never look at the access bits. Internal types and methods are therefore
  scanned, and `NetAssemblyScanner.VisibilityIsNotFiltered` states this.
  ArchitectureAnalyzer.Net.Scanner.Test/ReflectionScannerTest.cs:95-101
  expects an internal class to be left out.
- The newer scanners and GraphBuilder use members that the classes of
  ArchitectureAnalyzer.Net.Model do not declare. They were therefore written
  against later versions of those classes than the ones in the repository.
  The model's records carry every such member:
  - `NetType.Assembly` and `NetType.Visibility`, assigned at
    ArchitectureAnalyzer.Net.Scanner/TypeScanner.cs:28-29 and read at
    GraphBuilder.cs:103;
  - `NetType.Properties`, assigned at TypeScanner.cs:35 and read at
    GraphBuilder.cs:205;
  - `NetType.IsGenericTypeInstantiation`, `GenericType` and
    `GenericTypeInstantiationArgs`, read at GraphBuilder.cs:190-197;
  - `NetMethod.DeclaringType` and `NetMethod.Visibility`, assigned at
    MethodScanner.cs:26-27;
  - `NetMethod.Parameters`, assigned at MethodScanner.cs:35 and read at
    GraphBuilder.cs:158. ArchitectureAnalyzer.Net.Model/NetMethod.cs declares
    `ParameterTypes` instead, which the newer scanner never sets.

  `SerializedType` and `SerializedAssembly` follow the classes as the
  repository declares them, not the later ones. None of the members above is
  serialised (`NetModel.LaterMembersNotSerialized`). The later `NetType` would
  most likely also serialise its `Visibility`, and that is not modelled.
- The same version skew explains `IsGeneric`. In NetType.cs:36
  it is a plain auto property, and no modelled code assigns it. Against that
  class it would always be false, so `GetDisplayName`
  (TypeScanner.cs:44-54) would never strip the backtick and `` GenericClass`1 ``
  would be displayed and serialised under that name with `IsGeneric` false.
  The model derives `IsGeneric` from `GenericTypeArgs`, which the scanner sets
  at TypeScanner.cs:33 before the display name is computed. A generic type is
  then displayed as `GenericClass` and serialised with `IsGeneric` true. This
  is what ArchitectureAnalyzer.Net.Scanner.Test/TypeScannerTest.cs:158-169
  expects, and it is the only place where the model takes a member's meaning
  from a test.
- ArchitectureAnalyzer.DotnetScanner/Scanner/MethodScanner.cs:80 interns a
  method by `new MethodKey(name)` in a factory that is keyed by strings. The
  model interns by the name string, so a method without a name throws
  ArgumentNull.
- The older TypeScanner passes four arguments to a three-argument
  `MethodScanner` constructor. The model ignores the extra database argument.

## Model

| member | source | states |
|---|---|---|
| Graph.NodeEquals | ArchitectureAnalyzer.Core/Graph/Node.cs:9-24 | a null object or one of another runtime class is never equal; otherwise two nodes are equal exactly when their Ids are |
| Graph.Int64HashCode | ArchitectureAnalyzer.Core/Graph/Node.cs:26-29 | the hash of a 64-bit Id is a signed 32-bit value |
| Graph.EqualNodesHashEqually | ArchitectureAnalyzer.Core/Graph/Node.cs:9-29 | equal nodes have equal hash codes |
| Graph.NodeEqualsReflexive | ArchitectureAnalyzer.Core/Graph/Node.cs:9-24 | a node equals itself |
| Graph.NodeEqualsSymmetric | ArchitectureAnalyzer.Core/Graph/Node.cs:9-24 | equality does not depend on the order of the operands |
| Graph.NodeEqualsTransitive | ArchitectureAnalyzer.Core/Graph/Node.cs:9-24 | equality is transitive |
| Graph.Transaction.Clear | ArchitectureAnalyzer.Core/Graph/IGraphDatabaseTransaction.cs:9 | appends one clear call to the log |
| Graph.Transaction.CreateNode | ArchitectureAnalyzer.Core/Graph/IGraphDatabaseTransaction.cs:11-12 | appends one node creation to the log, nothing else changes |
| Graph.Transaction.CreateRelationship | ArchitectureAnalyzer.Core/Graph/IGraphDatabaseTransaction.cs:14-16 | appends one relationship, with its two ends and its label, to the log |
| Strings.IntToString | ArchitectureAnalyzer.Net.Scanner/SignatureTypeProvider.cs:112-119 | `StringBuilder.Append(int)` prints decimal digits, led by '-' for a negative value |
| Strings.NatToString | ArchitectureAnalyzer.Net.Scanner/SignatureTypeProvider.cs:112-119 | a natural number prints as at least one decimal digit, one digit exactly below ten |
| Strings.NatToStringInjective | ArchitectureAnalyzer.Net.Scanner/SignatureTypeProvider.cs:112-119 | distinct numbers print differently |
| Strings.IntToStringInjective | ArchitectureAnalyzer.Net.Scanner/SignatureTypeProvider.cs:112-119 | distinct bounds print differently, so two shapes with different bounds get different keys |
| Strings.CountJoin | ArchitectureAnalyzer.DotnetScanner/Model/TypeKeyExtensions.cs:43 | joining n comma-free parts with "," yields exactly n - 1 commas |
| Strings.LastIndexOf | ArchitectureAnalyzer.Net.Scanner/TypeScanner.cs:50 | `LastIndexOf` is absent exactly when the character does not occur, and otherwise is the position of its last occurrence |
| ArrayShapes.AppendShape | ArchitectureAnalyzer.Net.Scanner/SignatureTypeProvider.cs:98-128 | the StringBuilder loop yields the prefix, then "[", each dimension (the declared lower bound if any, "...", then lower bound + size - 1 if a size is declared, the lower bound defaulting to 0), comma-separated, then "]" |
| ArrayShapes.AppendDimension | ArchitectureAnalyzer.Net.Scanner/SignatureTypeProvider.cs:107-120 | one loop turn appends exactly one dimension: the declared lower bound if any, "...", then lower bound + size - 1 if a size is declared, with the lower bound defaulting to 0 |
| ArrayShapes.ShapeCommas | ArchitectureAnalyzer.Net.Scanner/SignatureTypeProvider.cs:105-128 | a shape of rank n >= 1 renders with exactly n - 1 commas |
| ArrayShapes.GeneralArrayIsNotVector | ArchitectureAnalyzer.Net.Scanner/SignatureTypeProvider.cs:84-128 | a general array of rank at least one never renders as the "[]" of a single-dimension array |
| ArrayShapes.RankZero | ArchitectureAnalyzer.Net.Scanner/SignatureTypeProvider.cs:103-128 | a rank-0 shape renders as "[]" |
| ArrayShapes.TwoUnboundedDimensions | ArchitectureAnalyzer.Net.Scanner/SignatureTypeProvider.cs:105-126 | rank 2 without bounds renders as "[...,...]" |
| ArrayShapes.BoundedDimension | ArchitectureAnalyzer.Net.Scanner/SignatureTypeProvider.cs:107-120 | lower bound 1 with size 3 renders as "[1...3]" |
| ArrayShapes.SizeWithoutLowerBound | ArchitectureAnalyzer.Net.Scanner/SignatureTypeProvider.cs:107-120 | size 5 without a lower bound counts from 0 and renders as "[...4]" |
| CountedMap.ModelMap.Get | ArchitectureAnalyzer.Net.Scanner/Model/ModelFactory.cs:131-143 | a hit returns the stored node and changes nothing; a miss stores a new blank node under the key with the counter's value as Id, advances the counter, and returns it |
| CountedMap.ModelMap.Update | ArchitectureAnalyzer.Net.Scanner/Model/ModelFactory.cs:32 | a field write on an interned node keeps its Id, its key and every other node |
| CountedMap.ModelsAreTheInterned | ArchitectureAnalyzer.Net.Scanner/Model/ModelFactory.cs:129 | `Models` lists every interned node exactly once and nothing else |
| CountedMap.FreshIdsAppend | ArchitectureAnalyzer.Net.Scanner/Model/ModelFactory.cs:135-139 | a miss keeps ids strictly increasing and below the counter |
| CountedMap.FreshIdsAreDistinct | ArchitectureAnalyzer.Net.Scanner/Model/ModelFactory.cs:125-139 | no two nodes of one map share an Id |
| CountedMap.ModelMap.constructor | ArchitectureAnalyzer.Net.Scanner/Model/ModelFactory.cs:145-148 | a new map is empty, its counter starts at the given shared value |
| Graph.NodeHashCode | ArchitectureAnalyzer.Core/Graph/Node.cs:26-29 | the hash of a node is the 32-bit fold of its Id; `EqualNodesHashEqually` proves that equal nodes hash equally |
| NetModel.NewType | ArchitectureAnalyzer.Net.Model/NetType.cs:55-62 | a new type is External, not generic, with no base type, no interfaces, attributes, methods or type arguments, and every flag false |
| NetModel.NewAssembly | ArchitectureAnalyzer.Net.Model/NetAssembly.cs:20-24 | a new assembly has no name, no references and no defined types |
| NetModel.NewMethod | ArchitectureAnalyzer.Net.Model/NetMethod.cs:30-33 | a new method has no generic parameters, no return type and no declaring type |
| NetModel.NewMethodParameter | ArchitectureAnalyzer.Net.Model/NetMethodParameter.cs:7-23 | a new parameter has order 0 and no type or declaring method |
| NetModel.NewProperty | ArchitectureAnalyzer.Net.Model/NetProperty.cs:10-24 | a new property has no type and no declaring type |
| NetModel.TypeToString | ArchitectureAnalyzer.Net.Model/NetType.cs:64-67 | the text is `NetType(` + namespace + `.` + name + `)`, a null part printing as empty |
| NetModel.AssemblyToString | ArchitectureAnalyzer.Net.Model/NetAssembly.cs:26-29 | the text is `NetAssembly(` + name + `)` |
| NetModel.SerializedType | ArchitectureAnalyzer.Net.Model/NetType.cs:10-53 | a type node serialises exactly ten properties: Id and the nine scalar members, the type class by its name |
| NetModel.SerializedAssembly | ArchitectureAnalyzer.Net.Model/NetAssembly.cs:10-18 | an assembly node serialises only Id and Name |
| NetModel.TypeReferencesNotSerialized | ArchitectureAnalyzer.Net.Model/NetType.cs:40-53 | the `[JsonIgnore]` references (base type, interfaces, attributes, methods) never change what a type node serialises |
| NetModel.AssemblyReferencesNotSerialized | ArchitectureAnalyzer.Net.Model/NetAssembly.cs:14-18 | References and DefinedTypes never change what an assembly node serialises |
| NetModel.RelationshipEquals | ArchitectureAnalyzer.Net.Model/HasParameterRelationship.cs:13-31 | null and objects of other classes are unequal; another HasParameterRelationship is equal exactly when the orders agree |
| NetModel.ReferenceShortcutAgrees | ArchitectureAnalyzer.Net.Model/HasParameterRelationship.cs:20-28 | the `ReferenceEquals` shortcut gives the answer the order comparison would |
| NetModel.EqualRelationshipsHashEqually | ArchitectureAnalyzer.Net.Model/HasParameterRelationship.cs:13-36 | equal relationships have equal hash codes |
| NetTypeKeys.FromType | ArchitectureAnalyzer.Net.Scanner/Model/TypeKey.cs:25-28 | a key from a runtime type carries its namespace and its (non-null) name, so it is never `Undefined` |
| NetTypeKeys.ArgumentOf | ArchitectureAnalyzer.Net.Scanner/Model/TypeKey.cs:35-45 | an argument read back from a name is one that, wrapped as `prefix<arg>`, gives that name |
| NetTypeKeys.TypeArgumentOf | ArchitectureAnalyzer.Net.Scanner/Model/TypeKey.cs:35-38 | an argument read back from a key is one `FromTypeArgument(owner, arg)` maps to that key |
| NetTypeKeys.MethodParameterOf | ArchitectureAnalyzer.Net.Scanner/Model/TypeKey.cs:40-45 | an argument read back from a key is one `FromMethodParameter(method, arg)` maps to that key |
| NetTypeKeys.ArgumentOfWrapped | ArchitectureAnalyzer.Net.Scanner/Model/TypeKey.cs:35-45 | reading back the argument of `prefix<arg>` returns `arg` |
| NetTypeKeys.TypeArgumentRoundTrip | ArchitectureAnalyzer.Net.Scanner/Model/TypeKey.cs:35-38 | the type-argument name can always be recovered from the key `FromTypeArgument` builds |
| NetTypeKeys.MethodParameterRoundTrip | ArchitectureAnalyzer.Net.Scanner/Model/TypeKey.cs:40-45 | the generic-parameter name can always be recovered from the key `FromMethodParameter` builds |
| NetTypeKeys.FromTypeArgumentInjective | ArchitectureAnalyzer.Net.Scanner/Model/TypeKey.cs:35-38 | for one owner, distinct argument names give distinct keys |
| NetTypeKeys.FromMethodParameterInjective | ArchitectureAnalyzer.Net.Scanner/Model/TypeKey.cs:40-45 | for one method, distinct argument names give distinct keys |
| TypeKeyExtensions.GetKey | ArchitectureAnalyzer.DotnetScanner/Model/TypeKeyExtensions.cs:11-14 | a node's key carries its current namespace and name |
| TypeKeyExtensions.SuffixOperationsInjective | ArchitectureAnalyzer.DotnetScanner/Model/TypeKeyExtensions.cs:16-34 | each of the array, pointer, reference and pinned operations keeps the namespace and is injective on keys with a name |
| TypeKeyExtensions.NullAndEmptyNamesCollide | ArchitectureAnalyzer.DotnetScanner/Model/TypeKeyExtensions.cs:16-19 | a null name and an empty name, distinct keys, give the same array key |
| TypeKeyExtensions.SuffixOperationsDisjoint | ArchitectureAnalyzer.DotnetScanner/Model/TypeKeyExtensions.cs:16-34 | no two of the four suffix operations produce the same key, whatever their inputs |
| TypeKeyExtensions.GenericWithoutArguments | ArchitectureAnalyzer.DotnetScanner/Model/TypeKeyExtensions.cs:41-46 | no type arguments give `G<>` |
| TypeKeyExtensions.GenericArgumentWithEmptyNamespace | ArchitectureAnalyzer.DotnetScanner/Model/TypeKeyExtensions.cs:41-46 | an argument with an empty namespace keeps its leading dot, as in `G<.!0>` |
| TypeKeyExtensions.GenericArgumentsInOrder | ArchitectureAnalyzer.DotnetScanner/Model/TypeKeyExtensions.cs:41-46 | two arguments render as `G<ns1.a1,ns2.a2>`, in their order |
| TypeKeyExtensions.GenericArgumentCommas | ArchitectureAnalyzer.DotnetScanner/Model/TypeKeyExtensions.cs:41-46 | with comma-free argument texts the argument list holds exactly one comma fewer than there are arguments |
| ScannerConstants.SpecialNamesAreConstructorsOrOperators | ArchitectureAnalyzer.Net.Scanner/ScannerConstants.cs:8-50 | every listed name is `.ctor` or starts with `op_` |
| ScannerConstants.ListedNamesStart | ArchitectureAnalyzer.Net.Scanner/ScannerConstants.cs:8-50 | every listed name starts with `.` or `o` |
| ScannerConstants.AccessorsAreNotListed | ArchitectureAnalyzer.Net.Scanner/ScannerConstants.cs:8-50 | no `get_`, `set_`, `add_` or `remove_` accessor name is listed |
| ScannerConstants.ConstructorAndEqualityAreListed | ArchitectureAnalyzer.Net.Scanner/ScannerConstants.cs:11-32 | `.ctor`, `op_Equality` and `op_Inequality` are listed |
| ScannerConstants.UnlistedSpecialNames | ArchitectureAnalyzer.Net.Scanner/ScannerConstants.cs:8-50 | `.cctor`, `op_True` and `op_False` are not listed |
| NetVisibility.TypeVisibility | ArchitectureAnalyzer.Net.Scanner/Utils/VisibilityExtensions.cs:11-37 | for each of the eight visibility-field values, exactly which visibility results; the two protected-and/or-internal nested values throw ArgumentOutOfRange |
| NetVisibility.MethodVisibility | ArchitectureAnalyzer.Net.Scanner/Utils/VisibilityExtensions.cs:39-62 | the `HasFlag` cascade on overlapping access values maps Public and the all-ones value to public, Assembly to internal, Family and FamORAssem to protected, Private to private, and throws for CompilerControlled and FamANDAssem |
| NetVisibility.OnlyAccessBitsMatter | ArchitectureAnalyzer.Net.Scanner/Utils/VisibilityExtensions.cs:11-62 | bits outside the three access bits never change either visibility |
| NetModel.TypeClassName | ArchitectureAnalyzer.Net.Model/NetType.cs:12-22 | the enum member's own name, as `StringEnumConverter` writes `Type`; `SerializedType` serialises the type class through it |
| NetModel.RelationshipHashCode | ArchitectureAnalyzer.Net.Model/HasParameterRelationship.cs:33-36 | the hash code is the order; `EqualRelationshipsHashEqually` proves that equal relationships hash equally |
| TypeKeyExtensions.ToArrayType | ArchitectureAnalyzer.DotnetScanner/Model/TypeKeyExtensions.cs:16-19 | the namespace kept and `[]` after the name; `SuffixOperationsInjective` and `SuffixOperationsDisjoint` prove it injective on named keys and disjoint from the other suffixes |
| TypeKeyExtensions.ToPointerType | ArchitectureAnalyzer.DotnetScanner/Model/TypeKeyExtensions.cs:21-24 | the namespace kept and `*` after the name; injective and disjoint from the other suffixes by `SuffixOperationsInjective` and `SuffixOperationsDisjoint` |
| TypeKeyExtensions.ToReferenceType | ArchitectureAnalyzer.DotnetScanner/Model/TypeKeyExtensions.cs:26-29 | the namespace kept and `&` after the name; injective and disjoint from the other suffixes by `SuffixOperationsInjective` and `SuffixOperationsDisjoint` |
| TypeKeyExtensions.ToPinnedType | ArchitectureAnalyzer.DotnetScanner/Model/TypeKeyExtensions.cs:31-34 | the namespace kept and ` pinned` after the name; injective and disjoint from the other suffixes by `SuffixOperationsInjective` and `SuffixOperationsDisjoint` |
| TypeKeyExtensions.ToModifiedType | ArchitectureAnalyzer.DotnetScanner/Model/TypeKeyExtensions.cs:36-39 | the unmodified key's namespace, and `modifier.Namespace.modifier.Name name` as name; `GetModifiedType` of the newer provider interns exactly this key |
| TypeKeyExtensions.ToGenericType | ArchitectureAnalyzer.DotnetScanner/Model/TypeKeyExtensions.cs:41-46 | the name followed by the comma-joined `namespace.name` of the arguments in angle brackets; `GenericWithoutArguments`, `GenericArgumentsInOrder` and `GenericArgumentCommas` prove the rendering |
| NetTypeKeys.FromTypeArgument | ArchitectureAnalyzer.Net.Scanner/Model/TypeKey.cs:35-38 | the owner's namespace and `name<a>`; `TypeArgumentRoundTrip` recovers `a` and `FromTypeArgumentInjective` proves it injective for one owner |
| NetTypeKeys.FromMethodParameter | ArchitectureAnalyzer.Net.Scanner/Model/TypeKey.cs:40-45 | the declaring type's namespace and `type/method<a>`; `MethodParameterRoundTrip` recovers `a` and `FromMethodParameterInjective` proves it injective for one method |
| ScannerConstants.IsMethodSpecialName | ArchitectureAnalyzer.Net.Scanner/ScannerConstants.cs:8-50 | membership in the list of kept special names; `SpecialNamesAreConstructorsOrOperators`, `AccessorsAreNotListed` and `UnlistedSpecialNames` prove what it contains and what it does not |
| NetModel.LaterMembersNotSerialized | ArchitectureAnalyzer.Net.Model/NetType.cs:21-38 | the members the scanners use but NetType.cs does not declare (visibility, assembly, properties, the instantiation fields) never change what a type node serialises |
| Linq.WhereMembership | ArchitectureAnalyzer.Net.Scanner/TypeScanner.cs:117-122 | `Where` keeps an element exactly when it is in the input and satisfies the filter |
| Linq.SelectManyMembership | ArchitectureAnalyzer.DotnetScanner/Scanner/ReflectionScanner.cs:85 | an element of a `SelectMany` result comes from the sequence of some input element, and every such element is there |
| Linq.ExceptMembership | ArchitectureAnalyzer.DotnetScanner/Scanner/ReflectionScanner.cs:87 | `first.Except(second)` holds exactly the values of `first` that are not in `second` |
| Linq.ExceptDistinct | ArchitectureAnalyzer.DotnetScanner/Scanner/ReflectionScanner.cs:87 | `Except` yields each value at most once, even when `first` repeats it |
| Linq.ExceptRemovesRepetitions | ArchitectureAnalyzer.DotnetScanner/Scanner/ReflectionScanner.cs:87 | excluding nothing still drops repetitions, keeping first-occurrence order: [a, b, a] gives [a, b] |
| NetMetadata.GetString | ArchitectureAnalyzer.Net.Scanner/Utils/MetadataExtensions.cs:40-43 | null exactly for the nil handle, otherwise the heap string the handle points at |
| NetMetadata.DefinitionKey | ArchitectureAnalyzer.Net.Scanner/Utils/MetadataExtensions.cs:20-23 | each part of the key is null exactly when its handle is nil, so the key is `Undefined` exactly when both are |
| NetMetadata.ReferenceKey | ArchitectureAnalyzer.Net.Scanner/Utils/MetadataExtensions.cs:35-38 | each part of the key is null exactly when its handle is nil |
| NetMetadata.DefinitionHandleKey | ArchitectureAnalyzer.Net.Scanner/Utils/MetadataExtensions.cs:10-18 | the nil handle gives `TypeKey.Undefined`; any other handle gives the key of the row it designates |
| NetMetadata.ReferenceHandleKey | ArchitectureAnalyzer.Net.Scanner/Utils/MetadataExtensions.cs:25-33 | the nil handle gives `TypeKey.Undefined`; any other handle gives the key of the row it designates |
| NetMetadata.DefinitionAndReferenceAgree | ArchitectureAnalyzer.Net.Scanner/Utils/MetadataExtensions.cs:20-38 | a definition and a reference with the same name handles get the same key |
| NetMetadata.NamedRowIsDefined | ArchitectureAnalyzer.Net.Scanner/Utils/MetadataExtensions.cs:10-23 | a non-nil row with a name never maps to `Undefined`, and its key's name is the heap string |
| DotnetIds.GetString | ArchitectureAnalyzer.DotnetScanner/Utils/MetadataExtensions.cs:44-47 | null exactly for the nil handle, otherwise the heap string the handle points at |
| DotnetIds.Present | ArchitectureAnalyzer.DotnetScanner/Scanner/AbstractScanner.cs:41 | the `IsNullOrEmpty` filter keeps exactly the present, non-empty parts, and no more of them than there were |
| DotnetIds.DefinitionHandleId | ArchitectureAnalyzer.DotnetScanner/Utils/MetadataExtensions.cs:9-17 | the id is null exactly for the nil handle; any other handle gives the id of the row it designates |
| DotnetIds.ReferenceHandleId | ArchitectureAnalyzer.DotnetScanner/Utils/MetadataExtensions.cs:24-32 | the id is null exactly for the nil handle; any other handle gives the id of the row it designates |
| DotnetIds.TwoPartId | ArchitectureAnalyzer.DotnetScanner/Utils/MetadataExtensions.cs:19-42 | a namespace-and-name id is `namespace.name` when both are non-empty and the one present part otherwise |
| DotnetIds.GlobalNamespaceId | ArchitectureAnalyzer.DotnetScanner/Scanner/AbstractScanner.cs:29-42 | a type of the global namespace (nil or empty namespace) gets its bare name as id |
| DotnetIds.DefinitionAndReferenceAgree | ArchitectureAnalyzer.DotnetScanner/Utils/MetadataExtensions.cs:19-37 | a definition and a reference with the same name handles get the same id, so a referenced type and its definition meet in one node |
| DotnetIds.DottedPartsCollide | ArchitectureAnalyzer.DotnetScanner/Utils/MetadataExtensions.cs:39-42 | ids are not injective: namespace `A.B` with name `C` and namespace `A` with name `B.C` share `A.B.C` |
| DotnetModel.NewType | ArchitectureAnalyzer.DotnetScanner/Model/NetType.cs:38-41 | a new type is a Class with no base type, no interfaces, no name or namespace and every flag false |
| DotnetModel.NewMethod | ArchitectureAnalyzer.DotnetScanner/Model/NetMethod.cs:15-18 | a new method has no name, return type or parameter types and every flag false |
| DotnetModel.NewAssembly | ArchitectureAnalyzer.Net.Model/NetAssembly.cs:20-24 | a new assembly has no name, no references and no defined types |
| DotnetNodeFactory.IdMap.constructor | ArchitectureAnalyzer.DotnetScanner/Model/NodeFactory.cs:41-44 | a new map is empty |
| DotnetNodeFactory.IdMap.Get | ArchitectureAnalyzer.DotnetScanner/Model/NodeFactory.cs:46-55 | a null id throws ArgumentNull and changes nothing; a hit returns the stored node and changes nothing; a miss appends a blank node whose Id is the id, stored under it |
| DotnetNodeFactory.IdMap.Update | ArchitectureAnalyzer.DotnetScanner/Model/NodeFactory.cs:46-55 | a field write on a stored node keeps its id, its key and every other node |
| DotnetNodeFactory.IdsDistinct | ArchitectureAnalyzer.DotnetScanner/Model/NodeFactory.cs:39-52 | a map never stores one id twice, so an id names one node |
| DotnetNodeFactory.InternedGrows | ArchitectureAnalyzer.DotnetScanner/Model/NodeFactory.cs:46-55 | an interning call keeps every stored node and only appends blank ones, keys by appending |
| DotnetNodeFactory.GrowsTransitive | ArchitectureAnalyzer.DotnetScanner/Model/NodeFactory.cs:46-55 | successive interning calls still only append blank nodes |
| DotnetNodeFactory.NodeFactory.constructor | ArchitectureAnalyzer.DotnetScanner/Model/NodeFactory.cs:15-20 | three empty, separate maps |
| DotnetNodeFactory.NodeFactory.CreateAssemblyModel | ArchitectureAnalyzer.DotnetScanner/Model/NodeFactory.cs:22-25 | `Get` on the assembly map, leaving the type and method maps unchanged |
| DotnetNodeFactory.NodeFactory.CreateTypeModel | ArchitectureAnalyzer.DotnetScanner/Model/NodeFactory.cs:27-30 | `Get` on the type map, leaving the assembly and method maps unchanged |
| DotnetNodeFactory.NodeFactory.CreateMethodModel | ArchitectureAnalyzer.DotnetScanner/Model/NodeFactory.cs:32-35 | `Get` on the method map, leaving the assembly and type maps unchanged |
| DotnetModelFactory.ModelFactory.constructor | ArchitectureAnalyzer.DotnetScanner/Model/ModelFactory.cs:16-21 | three empty maps whose counters start at the given shared values |
| DotnetModelFactory.ModelFactory.CreateAssemblyModel | ArchitectureAnalyzer.DotnetScanner/Model/ModelFactory.cs:23-29 | interns the key (a miss takes the counter's value as Id) and sets the node's Name from the key, on a hit too; the other maps stay |
| DotnetModelFactory.ModelFactory.CreateTypeModel | ArchitectureAnalyzer.DotnetScanner/Model/ModelFactory.cs:31-38 | interns the key and sets Name and Namespace from it, on a hit too; the other maps stay |
| DotnetModelFactory.ModelFactory.CreateMethodModel | ArchitectureAnalyzer.DotnetScanner/Model/ModelFactory.cs:40-46 | interns the key and sets Name from it, on a hit too; the other maps stay |
| DotnetModelFactory.ModelFactory.GetAssemblyModels | ArchitectureAnalyzer.DotnetScanner/Model/ModelFactory.cs:48-51 | every interned assembly exactly once |
| DotnetModelFactory.ModelFactory.GetTypeModels | ArchitectureAnalyzer.DotnetScanner/Model/ModelFactory.cs:53-56 | every interned type exactly once |
| DotnetModelFactory.ModelFactory.GetMethodModels | ArchitectureAnalyzer.DotnetScanner/Model/ModelFactory.cs:58-61 | every interned method exactly once |
| DotnetModelFactory.OverloadsShareANode | ArchitectureAnalyzer.DotnetScanner/Model/MethodKey.cs:3-10 | methods are keyed by name alone, so overloads and same-named methods of different types share one node |
| DotnetIds.CreateId | ArchitectureAnalyzer.DotnetScanner/Utils/MetadataExtensions.cs:39-42 | the non-empty parts joined with dots; `TwoPartId` proves the namespace-and-name shape and `DottedPartsCollide` that it is not injective |
| DotnetIds.DefinitionId | ArchitectureAnalyzer.DotnetScanner/Utils/MetadataExtensions.cs:19-22 | the id of a definition's namespace and name; `DefinitionAndReferenceAgree` proves it meets the reference's id |
| DotnetIds.ReferenceId | ArchitectureAnalyzer.DotnetScanner/Utils/MetadataExtensions.cs:34-37 | the id of a reference's namespace and name; `GlobalNamespaceId` proves a global-namespace type gets its bare name |
| NetModelFactory.ModelFactory.constructor | ArchitectureAnalyzer.Net.Scanner/Model/ModelFactory.cs:20-27 | five empty, separate maps whose counters start at the given shared values |
| NetModelFactory.ModelFactory.CreateAssemblyModel | ArchitectureAnalyzer.Net.Scanner/Model/ModelFactory.cs:29-35 | interns the key; a miss appends a new assembly with the counter's value as Id and the key's name; a hit changes nothing, the name being already the key's |
| NetModelFactory.ModelFactory.CreateTypeModel | ArchitectureAnalyzer.Net.Scanner/Model/ModelFactory.cs:37-45 | interns the key and sets Name, DisplayName and Namespace from it: a hit only resets DisplayName to the key's name; every type node keeps carrying its key's name and namespace, and no key is stored twice |
| NetModelFactory.ModelFactory.CreateMethodModel | ArchitectureAnalyzer.Net.Scanner/Model/ModelFactory.cs:47-53 | interns the key; a miss appends a method named after the key, a hit changes nothing |
| NetModelFactory.ModelFactory.CreateMethodParameter | ArchitectureAnalyzer.Net.Scanner/Model/ModelFactory.cs:55-61 | interns the key; a miss appends a parameter named after the key, a hit changes nothing |
| NetModelFactory.ModelFactory.CreatePropertyModel | ArchitectureAnalyzer.Net.Scanner/Model/ModelFactory.cs:89-95 | interns the key; a miss appends a property named after the key, a hit changes nothing |
| NetModelFactory.ModelFactory.CreateArgumentModel | ArchitectureAnalyzer.Net.Scanner/Model/ModelFactory.cs:63-87 | interns the argument key and makes its node a GenericTypeArg displayed as the argument name, keeping its key's name and namespace, on a hit too |
| NetModelFactory.ModelFactory.CreateGenericTypeArg | ArchitectureAnalyzer.Net.Scanner/Model/ModelFactory.cs:63-74 | the node stored under `FromTypeArgument(key, name)` is a GenericTypeArg displayed as `name`; other type nodes only evolve as re-interning allows |
| NetModelFactory.ModelFactory.CreateGenericParameter | ArchitectureAnalyzer.Net.Scanner/Model/ModelFactory.cs:76-87 | the node stored under the method's generic-parameter key is a GenericTypeArg displayed as `name` |
| NetModelFactory.ModelFactory.UpdateType | ArchitectureAnalyzer.Net.Scanner/Model/ModelFactory.cs:122-143 | a property write on an interned type: its Id, key, name and namespace stay, every other node stays |
| NetModelFactory.ModelFactory.UpdateAssembly | ArchitectureAnalyzer.Net.Scanner/Model/ModelFactory.cs:122-143 | a property write on an interned assembly: its Id, key and name stay, every other node stays |
| NetModelFactory.ModelFactory.UpdateMethod | ArchitectureAnalyzer.Net.Scanner/Model/ModelFactory.cs:122-143 | a property write on an interned method: its Id, key and name stay, every other node stays |
| NetModelFactory.ModelFactory.UpdateParameter | ArchitectureAnalyzer.Net.Scanner/Model/ModelFactory.cs:122-143 | a property write on an interned parameter: its Id, key and name stay, every other node stays |
| NetModelFactory.ModelFactory.UpdateProperty | ArchitectureAnalyzer.Net.Scanner/Model/ModelFactory.cs:122-143 | a property write on an interned property: its Id, key and name stay, every other node stays |
| NetModelFactory.TypeInterned | ArchitectureAnalyzer.Net.Scanner/Model/ModelFactory.cs:37-45 | interning a type on a hit or a miss and naming it after its key keeps every type node named after its key and no key stored twice |
| NetModelFactory.TypesEvolveByWrite | ArchitectureAnalyzer.Net.Scanner/Model/ModelFactory.cs:39-42 | a write that changes only what re-interning may change is an evolution of the type arena |
| NetModelFactory.TypesEvolveByAppend | ArchitectureAnalyzer.Net.Scanner/Model/ModelFactory.cs:135-139 | a miss appends a node evolved from `new NetType()`: an evolution of the type arena |
| NetModelFactory.TypesEvolveTransitive | ArchitectureAnalyzer.Net.Scanner/Model/ModelFactory.cs:37-87 | two successive evolutions of the type arena are one evolution |
| NetModelFactory.TypesEvolveMonotone | ArchitectureAnalyzer.Net.Scanner/Model/ModelFactory.cs:37-87 | allowing more keys to be renamed or retyped keeps an evolution an evolution |
| NetModelFactory.TypesEvolveAt | ArchitectureAnalyzer.Net.Scanner/Model/ModelFactory.cs:37-87 | across an evolution a node that was there keeps its key and its Id, and changes at most its class and display name |
| NetModelFactory.ExtendsTransitive | ArchitectureAnalyzer.Net.Scanner/Model/ModelFactory.cs:131-143 | positions handed out by the factory keep their keys across any number of calls |
| NetModelFactory.ExtendsKeeps | ArchitectureAnalyzer.Net.Scanner/Model/ModelFactory.cs:131-143 | a position handed out before more interning keeps its key |
| NetModelFactory.InternTypeEvolving | ArchitectureAnalyzer.Net.Scanner/Model/ModelFactory.cs:37-45 | `CreateTypeModel` inside a scan: the node at the returned position has the key, and the arena still only evolves from where the scan started |
| NetModelFactory.InternArgumentEvolving | ArchitectureAnalyzer.Net.Scanner/Model/ModelFactory.cs:63-74 | `CreateGenericTypeArg` inside a scan: the returned node is the GenericTypeArg named by the argument, and the arena still only evolves from where the scan started |
| NetModelFactory.RefersToExtended | ArchitectureAnalyzer.Net.Scanner/Model/ModelFactory.cs:131-143 | references to interned nodes stay valid, and keep pointing at the same keys, while the factory grows |
| NetModelFactory.ModelFactory.GetAssemblyModels | ArchitectureAnalyzer.Net.Scanner/Model/ModelFactory.cs:97-100 | every interned assembly exactly once, in insertion order |
| NetModelFactory.ModelFactory.GetTypeModels | ArchitectureAnalyzer.Net.Scanner/Model/ModelFactory.cs:102-105 | every interned type exactly once, in insertion order |
| NetModelFactory.ModelFactory.GetMethodModels | ArchitectureAnalyzer.Net.Scanner/Model/ModelFactory.cs:107-110 | every interned method exactly once, in insertion order |
| NetModelFactory.ModelFactory.GetMethodParameterModels | ArchitectureAnalyzer.Net.Scanner/Model/ModelFactory.cs:112-115 | every interned method parameter exactly once, in insertion order |
| NetModelFactory.ModelFactory.GetPropertyModels | ArchitectureAnalyzer.Net.Scanner/Model/ModelFactory.cs:117-120 | every interned property exactly once, in insertion order |
| NetSignatures.LookupEntry | ArchitectureAnalyzer.Net.Scanner/SignatureTypeProvider.cs:25-46 | in the primitive table, whose codes are distinct, each entry is what its code looks up |
| NetSignatures.PrimitiveKeysByName | ArchitectureAnalyzer.Net.Scanner/SignatureTypeProvider.cs:27-43 | `bool` is keyed ("System", "Boolean"), `int` ("System", "Int32") and `void` ("System", "Void") |
| NetSignatures.UnknownCodesHaveNoKey | ArchitectureAnalyzer.Net.Scanner/SignatureTypeProvider.cs:25-57 | codes outside the table, such as 0 or the instantiation code 0x15, have no primitive node |
| NetSignatures.SignatureKeys | ArchitectureAnalyzer.Net.Scanner/SignatureTypeProvider.cs:89-94 | a list decoded without failure gives one key per element |
| NetSignatures.UnsupportedElementsFail | ArchitectureAnalyzer.Net.Scanner/SignatureTypeProvider.cs:75-82 | type specifications and function pointers never decode: they throw NotImplemented |
| NetSignatures.SZArrayKey | ArchitectureAnalyzer.Net.Scanner/SignatureTypeProvider.cs:84-87 | an SZ array of E is keyed (E.Namespace, E.Name + "[]") |
| NetSignatures.GeneralArrayIsNotSZArray | ArchitectureAnalyzer.Net.Scanner/SignatureTypeProvider.cs:84-131 | a general array of rank at least one never shares the key of the SZ array of the same element |
| NetSignatures.GenericParameterKeysDistinct | ArchitectureAnalyzer.Net.Scanner/SignatureTypeProvider.cs:148-156 | `!i` never equals `!!j`, and each form tells its indices apart |
| NetSignatures.NewCode | ArchitectureAnalyzer.Net.Scanner/SignatureTypeProvider.cs:25-46 | a primitive code is not among the codes listed before it, so the initializer never adds a key twice |
| NetSignatures.InternType | ArchitectureAnalyzer.Net.Scanner/SignatureTypeProvider.cs:27-45 | `CreateTypeModel` as the provider relies on it: the key lands at the returned position and earlier positions keep theirs |
| NetSignatures.CreatePrimitiveTypes | ArchitectureAnalyzer.Net.Scanner/SignatureTypeProvider.cs:25-46 | the dictionary holds exactly the table's codes, each mapped to the node interned under its key |
| NetSignatures.SignatureTypeProvider.constructor | ArchitectureAnalyzer.Net.Scanner/SignatureTypeProvider.cs:21-47 | the provider keeps the factory and holds a node for every primitive code, interned under that code's key |
| NetSignatures.SignatureTypeProvider.PrimitivesKept | ArchitectureAnalyzer.Net.Scanner/SignatureTypeProvider.cs:49-57 | the dictionary's nodes keep their keys however much more the factory interns, so every later call returns the same node |
| NetSignatures.SignatureTypeProvider.GetPrimitiveType | ArchitectureAnalyzer.Net.Scanner/SignatureTypeProvider.cs:49-57 | a listed code returns the node of its key; an unlisted one throws ArgumentOutOfRange, both directions |
| NetSignatures.SignatureTypeProvider.Intern | ArchitectureAnalyzer.Net.Scanner/SignatureTypeProvider.cs:59-168 | every callback ends by interning its key: the key lands at the returned position and earlier positions keep theirs |
| NetSignatures.SignatureTypeProvider.GetTypeFromDefinition | ArchitectureAnalyzer.Net.Scanner/SignatureTypeProvider.cs:59-65 | the node of the definition's key, `Undefined` for the nil handle |
| NetSignatures.SignatureTypeProvider.GetTypeFromReference | ArchitectureAnalyzer.Net.Scanner/SignatureTypeProvider.cs:67-73 | the node of the reference's key, `Undefined` for the nil handle |
| NetSignatures.SignatureTypeProvider.ElementKey | ArchitectureAnalyzer.Net.Scanner/SignatureTypeProvider.cs:84-168 | `GetKey` of an element node is the key it is interned under |
| NetSignatures.SignatureTypeProvider.GetSZArrayType | ArchitectureAnalyzer.Net.Scanner/SignatureTypeProvider.cs:84-87 | the node of the element's key with `[]` appended |
| NetSignatures.SignatureTypeProvider.GetGenericInstantiation | ArchitectureAnalyzer.Net.Scanner/SignatureTypeProvider.cs:89-94 | the node of the generic type's key with the argument keys, in order |
| NetSignatures.SignatureTypeProvider.GetArrayType | ArchitectureAnalyzer.Net.Scanner/SignatureTypeProvider.cs:96-131 | the node of the element's key with its shape rendered after the name |
| NetSignatures.SignatureTypeProvider.GetByReferenceType | ArchitectureAnalyzer.Net.Scanner/SignatureTypeProvider.cs:133-136 | the node of the element's key with `&` appended |
| NetSignatures.SignatureTypeProvider.GetPointerType | ArchitectureAnalyzer.Net.Scanner/SignatureTypeProvider.cs:138-141 | the node of the element's key with `*` appended |
| NetSignatures.SignatureTypeProvider.GetGenericMethodParameter | ArchitectureAnalyzer.Net.Scanner/SignatureTypeProvider.cs:148-151 | the node keyed `!!index`, whatever the generic context |
| NetSignatures.SignatureTypeProvider.GetGenericTypeParameter | ArchitectureAnalyzer.Net.Scanner/SignatureTypeProvider.cs:153-156 | the node keyed `!index`, whatever the generic context |
| NetSignatures.SignatureTypeProvider.GetModifiedType | ArchitectureAnalyzer.Net.Scanner/SignatureTypeProvider.cs:158-163 | the node of the modified key, `modifier.Namespace.modifier.Name name`; whether the modifier is required does not matter |
| NetSignatures.SignatureTypeProvider.GetPinnedType | ArchitectureAnalyzer.Net.Scanner/SignatureTypeProvider.cs:165-168 | the node of the element's key with ` pinned` appended |
| NetSignatures.SignatureTypeProvider.Decode | ArchitectureAnalyzer.Net.Scanner/SignatureTypeProvider.cs:15-168 | decoding one type signature (section 23.2.12 of ECMA-335 Partition II) through these callbacks succeeds exactly when `SignatureKey` does, returning the node interned under that key, and otherwise fails with the exception of the first failing callback |
| NetSignatures.SignatureTypeProvider.DecodeAll | ArchitectureAnalyzer.Net.Scanner/SignatureTypeProvider.cs:89-94 | decoding a list left to right returns positions of the nodes interned under `SignatureKeys`, or its first failure |
| NetSignatures.SignatureKeysPrefixError | ArchitectureAnalyzer.Net.Scanner/SignatureTypeProvider.cs:89-94 | a failure on a prefix of a list is the failure of the whole list: decoding stops at the first exception |
| NetSignatures.SignatureTypeProvider.DecodeNext | ArchitectureAnalyzer.Net.Scanner/SignatureTypeProvider.cs:89-94 | one more element decoded: the positions grow by the node interned under its `SignatureKey`, or decoding the whole list fails with that element's exception |
| NetSignatures.CreateNextPrimitiveType | ArchitectureAnalyzer.Net.Scanner/SignatureTypeProvider.cs:25-46 | one more table entry: its code joins the dictionary, mapped to the node interned under its runtime type's key, and earlier entries keep their nodes |
| NetSignatures.PrimitiveKey | ArchitectureAnalyzer.Net.Scanner/SignatureTypeProvider.cs:25-46 | the key of a listed primitive code; `PrimitiveKeysByName`, `UnknownCodesHaveNoKey` and `LookupEntry` prove the table's entries and that unlisted codes have none |
| NetSignatures.GeneralArrayKey | ArchitectureAnalyzer.Net.Scanner/SignatureTypeProvider.cs:96-131 | the element's key with the rendered shape after its name; `GeneralArrayIsNotSZArray` proves it never meets the SZ array's key |
| NetSignatures.SignatureKey | ArchitectureAnalyzer.Net.Scanner/SignatureTypeProvider.cs:15-168 | the reference decoder: the key a signature element denotes, or the exception its callback throws; `SignatureTypeProvider.Decode` is proved equal to it, and `SZArrayKey`, `UnsupportedElementsFail` and `GenericParameterKeysDistinct` state its cases |
| ArrayShapes.ShapeSuffix | ArchitectureAnalyzer.Net.Scanner/SignatureTypeProvider.cs:98-128 | the rendered shape; `AppendShape` is proved to build it, and `ShapeCommas`, `RankZero` and `GeneralArrayIsNotVector` prove its form |
| NetSignatures.SignatureTypeProvider.DecodeSZArray | ArchitectureAnalyzer.Net.Scanner/SignatureTypeProvider.cs:84-87 | an SZ array decodes exactly when `SignatureKey` does: the element first, then the node of its key with `[]`, or the element's failure |
| NetSignatures.SignatureTypeProvider.DecodeArray | ArchitectureAnalyzer.Net.Scanner/SignatureTypeProvider.cs:96-131 | a general array decodes exactly when `SignatureKey` does: the element first, then the node of its key with the rendered shape, or the element's failure |
| NetSignatures.SignatureTypeProvider.DecodeByReference | ArchitectureAnalyzer.Net.Scanner/SignatureTypeProvider.cs:133-136 | a by-reference type decodes exactly when `SignatureKey` does, to the node of the element's key with `&`, or fails as the element does |
| NetSignatures.SignatureTypeProvider.DecodePointer | ArchitectureAnalyzer.Net.Scanner/SignatureTypeProvider.cs:138-141 | a pointer type decodes exactly when `SignatureKey` does, to the node of the element's key with `*`, or fails as the element does |
| NetSignatures.SignatureTypeProvider.DecodePinned | ArchitectureAnalyzer.Net.Scanner/SignatureTypeProvider.cs:165-168 | a pinned type decodes exactly when `SignatureKey` does, to the node of the element's key with ` pinned`, or fails as the element does |
| NetSignatures.SignatureTypeProvider.DecodeGenericInstantiation | ArchitectureAnalyzer.Net.Scanner/SignatureTypeProvider.cs:89-94 | an instantiation decodes exactly when `SignatureKey` does: the generic type, then the arguments left to right, then the node of `generic<args>`, or the first failure |
| NetSignatures.SignatureTypeProvider.DecodeFunctionPointer | ArchitectureAnalyzer.Net.Scanner/SignatureTypeProvider.cs:143-146 | a function pointer never decodes: it fails with its signature's first exception or, after the signature, with NotImplemented, exactly as `SignatureKey` says |
| NetSignatures.SignatureTypeProvider.DecodeModified | ArchitectureAnalyzer.Net.Scanner/SignatureTypeProvider.cs:158-163 | a modified type decodes exactly when `SignatureKey` does: the modifier, then the unmodified type, then the node of the modified key, or the first failure |
| NetSignatures.TypeParameterKey | ArchitectureAnalyzer.Net.Scanner/SignatureTypeProvider.cs:153-156 | the key `!index` in the empty namespace; `GenericParameterKeysDistinct` proves it never meets `!!j` and tells indices apart |
| NetSignatures.MethodTypeParameterKey | ArchitectureAnalyzer.Net.Scanner/SignatureTypeProvider.cs:148-151 | the key `!!index` in the empty namespace; `GenericParameterKeysDistinct` proves it never meets `!j` and tells indices apart |
| DotnetSignatures.PrimitiveIdsAreShort | ArchitectureAnalyzer.DotnetScanner/Scanner/SignatureTypeProvider.cs:22-84 | a primitive id is the runtime type's short name: non-empty and without a dot, so never namespace-qualified |
| DotnetSignatures.PrimitiveIdsByName | ArchitectureAnalyzer.DotnetScanner/Scanner/SignatureTypeProvider.cs:22-84 | `int` is `Int32`, `bool` is `Boolean`, `void` is `Void`, a typed reference is `TypeReference`; codes outside the switch, such as 0 and 0x15, have no id |
| DotnetSignatures.SignatureIds | ArchitectureAnalyzer.DotnetScanner/Scanner/SignatureTypeProvider.cs:116-121 | a list decoded without failure gives one id per element |
| DotnetSignatures.SuffixIds | ArchitectureAnalyzer.DotnetScanner/Scanner/SignatureTypeProvider.cs:111-193 | the SZ array, by-reference, pointer and pinned ids are the element's id followed by `[]`, `&`, `*` and ` pinned` |
| DotnetSignatures.FailurePropagates | ArchitectureAnalyzer.DotnetScanner/Scanner/SignatureTypeProvider.cs:111-193 | an element that fails makes every array, reference, pointer or pinned type built on it fail with the same exception |
| DotnetSignatures.UnsupportedElementsFail | ArchitectureAnalyzer.DotnetScanner/Scanner/SignatureTypeProvider.cs:86-109 | type specifications and function pointers throw NotImplemented, and a nil definition or reference handle gives a null id the factory refuses with ArgumentNull |
| DotnetSignatures.DefinitionElementId | ArchitectureAnalyzer.DotnetScanner/Scanner/SignatureTypeProvider.cs:86-92 | a definition's signature id is its `GetTypeId`, so signatures and the type scan name a type alike |
| DotnetSignatures.GeneralArrayIsNotSZArray | ArchitectureAnalyzer.DotnetScanner/Scanner/SignatureTypeProvider.cs:111-156 | a general array of rank at least one never shares the id of the SZ array of the same element |
| DotnetSignatures.GenericParameterIdsDistinct | ArchitectureAnalyzer.DotnetScanner/Scanner/SignatureTypeProvider.cs:173-181 | `!i` never equals `!!j`, and each form tells its indices apart |
| DotnetSignatures.SignatureIdsPrefixError | ArchitectureAnalyzer.DotnetScanner/Scanner/SignatureTypeProvider.cs:116-121 | a failure on a prefix of a list is the failure of the whole list: decoding stops at the first exception |
| DotnetSignatures.SignatureTypeProvider.constructor | ArchitectureAnalyzer.DotnetScanner/Scanner/SignatureTypeProvider.cs:17-20 | the provider keeps the factory it is given |
| DotnetSignatures.SignatureTypeProvider.Intern | ArchitectureAnalyzer.DotnetScanner/Scanner/SignatureTypeProvider.cs:22-193 | every callback ends in `CreateTypeModel(id)`: the id lands at the returned position, earlier nodes stay, and only a null id throws |
| DotnetSignatures.SignatureTypeProvider.ElementId | ArchitectureAnalyzer.DotnetScanner/Scanner/SignatureTypeProvider.cs:111-193 | `elementType.Id` is the id the node is stored under |
| DotnetSignatures.SignatureTypeProvider.Decode | ArchitectureAnalyzer.DotnetScanner/Scanner/SignatureTypeProvider.cs:13-194 | decoding one type signature (section 23.2.12 of ECMA-335 Partition II) through these callbacks succeeds exactly when `SignatureId` does, returning the node stored under that id, and otherwise fails with the first failing callback's exception; existing type nodes never change |
| DotnetSignatures.SignatureTypeProvider.DecodeSuffixed | ArchitectureAnalyzer.DotnetScanner/Scanner/SignatureTypeProvider.cs:111-193 | the SZ array, general array, by-reference, pointer and pinned callbacks intern the element's id with its suffix, or fail as the element does |
| DotnetSignatures.SignatureTypeProvider.DecodeGenericInstantiation | ArchitectureAnalyzer.DotnetScanner/Scanner/SignatureTypeProvider.cs:116-121 | the instantiation interns `generic<arg1,...,argn>`, or fails as the generic type or the first failing argument does |
| DotnetSignatures.SignatureTypeProvider.DecodeFunctionPointer | ArchitectureAnalyzer.DotnetScanner/Scanner/SignatureTypeProvider.cs:168-171 | a function pointer never decodes, failing with its signature's first exception or NotImplemented |
| DotnetSignatures.SignatureTypeProvider.DecodeModified | ArchitectureAnalyzer.DotnetScanner/Scanner/SignatureTypeProvider.cs:183-188 | a modified type interns `modifier unmodified`, the modifier decoded first |
| DotnetSignatures.SignatureTypeProvider.DecodeAll | ArchitectureAnalyzer.DotnetScanner/Scanner/SignatureTypeProvider.cs:116-121 | decoding a list left to right returns the positions of the nodes stored under `SignatureIds`, or its first failure |
| DotnetSignatures.PrimitiveId | ArchitectureAnalyzer.DotnetScanner/Scanner/SignatureTypeProvider.cs:22-84 | the short runtime name of a listed primitive code; `PrimitiveIdsAreShort` and `PrimitiveIdsByName` prove its entries, and unlisted codes have none |
| DotnetSignatures.GeneralArrayId | ArchitectureAnalyzer.DotnetScanner/Scanner/SignatureTypeProvider.cs:123-156 | the element's id with the rendered shape; `GeneralArrayIsNotSZArray` proves it never meets the SZ array's id |
| DotnetSignatures.InstantiationId | ArchitectureAnalyzer.DotnetScanner/Scanner/SignatureTypeProvider.cs:116-121 | `generic<arg1,...,argn>`; `SignatureTypeProvider.DecodeGenericInstantiation` interns exactly this id |
| DotnetSignatures.SignatureId | ArchitectureAnalyzer.DotnetScanner/Scanner/SignatureTypeProvider.cs:13-194 | the reference decoder: the id a signature element denotes, or the exception its callback throws; `SignatureTypeProvider.Decode` is proved equal to it, and `SuffixIds`, `FailurePropagates` and `UnsupportedElementsFail` state its cases |
| NetAbstractScanner.GetTypeFromTypeReference | ArchitectureAnalyzer.Net.Scanner/AbstractScanner.cs:25-33 | the node at the returned position is interned under the reference's key (a custom attribute's under its attribute type's); other type nodes only evolve as re-interning allows |
| NetAbstractScanner.GenericParameterKey | ArchitectureAnalyzer.Net.Scanner/Model/ModelFactory.cs:63-74 | a generic parameter is interned under a type-argument key of its owner from which its name reads back |
| NetAbstractScanner.CreateGenericTypeArgs | ArchitectureAnalyzer.Net.Scanner/MethodScanner.cs:67-77 | one `CreateGenericTypeArg` per generic parameter, in order: the returned list refers to the parameters' keys, one by one |
| NetPropertyScanner.InternProperty | ArchitectureAnalyzer.Net.Scanner/PropertyScanner.cs:20-21 | the property's node is named after its key and declared by the given type; no other property node is written |
| NetPropertyScanner.ScanProperty | ArchitectureAnalyzer.Net.Scanner/PropertyScanner.cs:16-25 | a property with a getter yields its node, named after it, declared by the type and typed by the getter's return type; one without a getter throws NullReference; other property nodes stay |
| NetPropertyScanner.PropertyModelledExtended | ArchitectureAnalyzer.Net.Scanner/PropertyScanner.cs:16-25 | a scanned property stays correctly recorded however much the type arena grows |
| NetMethodScanner.FlagsDoNotChangeVisibility | ArchitectureAnalyzer.Net.Scanner/MethodScanner.cs:27-31 | abstract, static and final bits never change a method's visibility |
| NetMethodScanner.OverloadsShareAKey | ArchitectureAnalyzer.Net.Scanner/Model/MethodKey.cs:3-14 | two methods of one type with one name share a key, so overloads are interned as one node |
| NetMethodScanner.InternParameter | ArchitectureAnalyzer.Net.Scanner/MethodScanner.cs:59 | the parameter's node is named after its key; no other parameter node is written |
| NetMethodScanner.CreateParameter | ArchitectureAnalyzer.Net.Scanner/MethodScanner.cs:54-65 | the parameter's node carries its name, its sequence number as order, the node of its parameter type and the declaring method; no other parameter node is written |
| NetMethodScanner.CreateParameters | ArchitectureAnalyzer.Net.Scanner/MethodScanner.cs:45-52 | one node per parameter, in order, each recorded as `CreateParameter` promises when the parameter keys are distinct |
| NetMethodScanner.ParametersModelledStep | ArchitectureAnalyzer.Net.Scanner/MethodScanner.cs:45-52 | a parameter created under a fresh key leaves the earlier parameters' nodes recorded as they were |
| NetMethodScanner.ParameterModelledExtended | ArchitectureAnalyzer.Net.Scanner/MethodScanner.cs:54-65 | a recorded parameter stays recorded however much the type arena grows |
| NetMethodScanner.MethodModelledExtended | ArchitectureAnalyzer.Net.Scanner/MethodScanner.cs:21-38 | a recorded method stays recorded however much the type and parameter arenas grow |
| NetMethodScanner.InternMethod | ArchitectureAnalyzer.Net.Scanner/MethodScanner.cs:25-26 | the method's node is named after its key and declared by the given type; no other method node is written |
| NetMethodScanner.CreateSignature | ArchitectureAnalyzer.Net.Scanner/MethodScanner.cs:32-35 | the generic parameters refer to their keys in order, the return type to its key, and the parameters to theirs, each recorded |
| NetMethodScanner.RecordMethod | ArchitectureAnalyzer.Net.Scanner/MethodScanner.cs:27-35 | once interned with a supported visibility, the method's node records the visibility, the abstract, static, final and generic flags, the generic parameters, the return type and the parameters |
| NetMethodScanner.ScanMethod | ArchitectureAnalyzer.Net.Scanner/MethodScanner.cs:21-38 | succeeds exactly when the method's access bits have a visibility (else the same exception); the node interned under its key then records every field the scan writes; keys of all maps only grow |
| NetMethodScanner.ScanMethodEvolving | ArchitectureAnalyzer.Net.Scanner/MethodScanner.cs:21-38 | `ScanMethod` inside a type scan: the same result, no other method node written, and the type arena still only evolving from where the type scan started |
| NetMethodScanner.CreateNextParameter | ArchitectureAnalyzer.Net.Scanner/MethodScanner.cs:49-51 | one more parameter interned: its node joins the list in parameter order, recorded as `CreateParameter` promises when the keys are distinct |
| NetMethodScanner.IsAbstract | ArchitectureAnalyzer.Net.Scanner/MethodScanner.cs:79-82 | the method's Abstract bit; `FlagsDoNotChangeVisibility` proves it never changes the visibility, and `RecordMethod` stores it on the node |
| NetMethodScanner.IsStatic | ArchitectureAnalyzer.Net.Scanner/MethodScanner.cs:84-87 | the method's Static bit; `RecordMethod` stores it on the node |
| NetMethodScanner.IsSealed | ArchitectureAnalyzer.Net.Scanner/MethodScanner.cs:89-92 | the method's Final bit; `RecordMethod` stores it on the node |
| NetMethodScanner.IsGeneric | ArchitectureAnalyzer.Net.Scanner/MethodScanner.cs:94-97 | whether the method has generic parameters; `RecordMethod` stores it on the node beside those parameters |
| NetTypeScanner.GetTypeClass | ArchitectureAnalyzer.Net.Scanner/TypeScanner.cs:56-71 | a type is an interface exactly when its Interface bit is set; an enum exactly when that bit is clear and its base type is `System.Enum`; a class otherwise |
| NetTypeScanner.TypeFlagsPartition | ArchitectureAnalyzer.Net.Scanner/TypeScanner.cs:78-94 | at most one of sealed, static and abstract holds, and the Sealed and Abstract bits are recovered from the three flags |
| NetTypeScanner.AccessorsAreSkipped | ArchitectureAnalyzer.Net.Scanner/TypeScanner.cs:125-139 | a SpecialName getter, setter, event adder or remover is not scanned as a method |
| NetTypeScanner.ConstructorsAreScanned | ArchitectureAnalyzer.Net.Scanner/TypeScanner.cs:125-139 | an instance constructor is always scanned, whatever its attributes |
| NetTypeScanner.DisplayName | ArchitectureAnalyzer.Net.Scanner/TypeScanner.cs:44-54 | a non-generic type displays its name unchanged; a generic one displays the prefix before its last backtick, throws NullReference when the name is null and ArgumentOutOfRange when there is no backtick |
| NetTypeScanner.DisplayNameOfGenericName | ArchitectureAnalyzer.Net.Scanner/TypeScanner.cs:44-54 | the compiler's `Name`n` for a generic type displays as `Name` |
| NetTypeScanner.MethodCovered | ArchitectureAnalyzer.Net.Scanner/TypeScanner.cs:115-123 | the keys a scanned method interns are among those of any method list holding it |
| NetTypeScanner.PropertyCovered | ArchitectureAnalyzer.Net.Scanner/TypeScanner.cs:141-149 | a scanned property's key is among those of any property list holding it |
| NetTypeScanner.OwnArgumentsDoNotRetype | ArchitectureAnalyzer.Net.Scanner/TypeScanner.cs:33-34 | when a type owns its generic parameters and its methods', scanning them never re-interns the type itself as a type argument |
| NetTypeScanner.OwnParametersDoNotRetype | ArchitectureAnalyzer.Net.Scanner/TypeScanner.cs:103-113 | generic parameters owned by a type never produce that type's key |
| NetTypeScanner.OwnMethodsDoNotRetype | ArchitectureAnalyzer.Net.Scanner/MethodScanner.cs:67-77 | methods' generic parameters owned by a type never produce that type's key |
| NetTypeScanner.ArgumentIsNotOwner | ArchitectureAnalyzer.Net.Scanner/Model/TypeKey.cs:35-39 | a type argument's key differs from its owner's key |
| NetTypeScanner.TypeModelledKept | ArchitectureAnalyzer.Net.Scanner/TypeScanner.cs:22-42 | a scanned type node stays faithful to its definition while later scans grow the arenas and evolve the node as re-interning allows |
| NetTypeScanner.MemberedKept | ArchitectureAnalyzer.Net.Scanner/TypeScanner.cs:33-35 | a node's generic arguments, methods and properties keep referring to the definition's keys when the arenas grow |
| NetTypeScanner.MethodsModelledStep | ArchitectureAnalyzer.Net.Scanner/TypeScanner.cs:115-123 | scanning one more method under a fresh key keeps every earlier method node faithful and adds the new one |
| NetTypeScanner.MethodsModelledExtended | ArchitectureAnalyzer.Net.Scanner/TypeScanner.cs:115-123 | scanned method nodes stay faithful when the type arena grows |
| NetTypeScanner.PropertiesModelledStep | ArchitectureAnalyzer.Net.Scanner/TypeScanner.cs:141-149 | scanning one more property under a fresh key keeps every earlier property node faithful and adds the new one |
| NetTypeScanner.PropertiesModelledExtended | ArchitectureAnalyzer.Net.Scanner/TypeScanner.cs:141-149 | scanned property nodes stay faithful when the type arena grows |
| NetTypeScanner.RelationsCompleteScan | ArchitectureAnalyzer.Net.Scanner/TypeScanner.cs:37-39 | a node whose members are scanned, given its interfaces, attributes and base type, is a completely scanned type |
| NetTypeScanner.MethodSetsIncluded | ArchitectureAnalyzer.Net.Scanner/TypeScanner.cs:115-123 | the keys one included method interns are among those of its type's scan |
| NetTypeScanner.PropertySetsIncluded | ArchitectureAnalyzer.Net.Scanner/TypeScanner.cs:141-149 | the key one included property interns is among those of its type's scan |
| NetTypeScanner.CreateMethods | ArchitectureAnalyzer.Net.Scanner/TypeScanner.cs:115-123 | succeeds exactly when every included method has a supported visibility, else throws ArgumentOutOfRange; the list refers to the included methods' keys in order, and with distinct keys every method node is faithful to its definition |
| NetTypeScanner.ScanMethods | ArchitectureAnalyzer.Net.Scanner/TypeScanner.cs:117-122 | `ScanMethod` on each method in order: succeeds exactly when all visibilities are supported, and the returned positions hold the methods' keys in order |
| NetTypeScanner.ScanMethodAt | ArchitectureAnalyzer.Net.Scanner/TypeScanner.cs:117-122 | scanning the method at `j` extends the positions by its key, or throws ArgumentOutOfRange for an unsupported visibility |
| NetTypeScanner.SupportedStep | ArchitectureAnalyzer.Net.Scanner/TypeScanner.cs:117-122 | a prefix of supported methods followed by one more supported method is supported |
| NetTypeScanner.ReadableStep | ArchitectureAnalyzer.Net.Scanner/TypeScanner.cs:143-148 | a prefix of properties with getters followed by one more with a getter is readable |
| NetTypeScanner.CreateProperties | ArchitectureAnalyzer.Net.Scanner/TypeScanner.cs:141-149 | succeeds exactly when every included property has a getter, else throws NullReference; the list refers to the included properties' keys in order, and with distinct keys every property node is faithful |
| NetTypeScanner.ScanProperties | ArchitectureAnalyzer.Net.Scanner/TypeScanner.cs:143-148 | `ScanProperty` on each property in order: succeeds exactly when each has a getter, returning their positions in order |
| NetTypeScanner.ScanPropertyAt | ArchitectureAnalyzer.Net.Scanner/TypeScanner.cs:143-148 | scanning the property at `j` extends the positions by its key, or throws NullReference without a getter |
| NetTypeScanner.GetTypesFromReferences | ArchitectureAnalyzer.Net.Scanner/TypeScanner.cs:156-170 | the returned positions hold the references' keys, one for one and in order |
| NetTypeScanner.GetBaseType | ArchitectureAnalyzer.Net.Scanner/TypeScanner.cs:96-101 | there is a base position exactly when the definition has a base type, and it holds that type's key |
| NetTypeScanner.WriteScanned | ArchitectureAnalyzer.Net.Scanner/TypeScanner.cs:26-39 | the node at `t` gets the new data; keys and every other node are unchanged |
| NetTypeScanner.CollectMembers | ArchitectureAnalyzer.Net.Scanner/TypeScanner.cs:33-35 | fails exactly with the first member failure; otherwise the generic arguments, methods and properties refer to the definition's keys in order |
| NetTypeScanner.ScanTypeMembers | ArchitectureAnalyzer.Net.Scanner/TypeScanner.cs:33-36 | fails exactly with the first member failure (a method visibility, a property without getter, a display name); otherwise the node refers to its members and carries its display name |
| NetTypeScanner.RecordMembers | ArchitectureAnalyzer.Net.Scanner/TypeScanner.cs:33-36 | writes the member lists and fails exactly when the display name throws; otherwise the node carries it |
| NetTypeScanner.ScanTypeRelations | ArchitectureAnalyzer.Net.Scanner/TypeScanner.cs:37-39 | the node's interfaces, attributes and base type refer to the definition's references; its other fields are unchanged |
| NetTypeScanner.HeadType | ArchitectureAnalyzer.Net.Scanner/TypeScanner.cs:26-32 | succeeds exactly when the visibility is supported; the node under the type's key then has the definition's class, assembly, visibility and flags |
| NetTypeScanner.ScanTypeAt | ArchitectureAnalyzer.Net.Scanner/TypeScanner.cs:33-39 | fails exactly with the first member failure; otherwise the node is a completely scanned type |
| NetTypeScanner.ScanType | ArchitectureAnalyzer.Net.Scanner/TypeScanner.cs:22-42 | succeeds exactly when the type has no scan failure, else throws that failure; on success the node under the type's key is faithful to the definition (assembly, visibility, flags, members, relations, class and display name unless re-interned) and every other type node changes only as re-interning allows |
| NetTypeScanner.IsSealed | ArchitectureAnalyzer.Net.Scanner/TypeScanner.cs:78-82 | Sealed without Abstract; `TypeFlagsPartition` proves at most one of the three flags holds and the bits are recoverable |
| NetTypeScanner.IsStatic | ArchitectureAnalyzer.Net.Scanner/TypeScanner.cs:84-88 | Sealed and Abstract together, as C# compiles a static class; covered by `TypeFlagsPartition` |
| NetTypeScanner.IsAbstract | ArchitectureAnalyzer.Net.Scanner/TypeScanner.cs:90-94 | Abstract without Sealed; covered by `TypeFlagsPartition` |
| NetTypeScanner.IncludeMethod | ArchitectureAnalyzer.Net.Scanner/TypeScanner.cs:125-139 | a listed special name, or no SpecialName bit; `AccessorsAreSkipped` and `ConstructorsAreScanned` prove both directions on accessors and constructors |
| NetTypeScanner.IncludeProperty | ArchitectureAnalyzer.Net.Scanner/TypeScanner.cs:151-154 | no SpecialName bit; `CreateProperties` scans exactly the properties it keeps, in order |
| NetTypeScanner.IncludedMethods | ArchitectureAnalyzer.Net.Scanner/TypeScanner.cs:115-123 | the methods `CreateMethods` scans: `Where(IncludeMethod)` in declaration order; `MethodSetsIncluded` and `ScanMethods` are stated over this list |
| NetTypeScanner.IncludedProperties | ArchitectureAnalyzer.Net.Scanner/TypeScanner.cs:141-149 | the properties `CreateProperties` scans: `Where(IncludeProperty)` in declaration order; `PropertySetsIncluded` and `ScanProperties` are stated over this list |
| NetAssemblyScanner.VisibilityIsNotFiltered | ArchitectureAnalyzer.Net.Scanner/AssemblyScanner.cs:55-63 | the visibility bits never decide whether a type is scanned: internal and nested types are kept like public ones |
| NetAssemblyScanner.IncludedTypesMembership | ArchitectureAnalyzer.Net.Scanner/AssemblyScanner.cs:49-50 | the types that reach the model are exactly the module's types without the SpecialName bit whose name does not start with `<` |
| NetAssemblyScanner.FirstFailingTypeUnique | ArchitectureAnalyzer.Net.Scanner/AssemblyScanner.cs:49-52 | a module whose types do not all scan has one first failing type, so the exception thrown is determined |
| NetAssemblyScanner.TypeScanStep | ArchitectureAnalyzer.Net.Scanner/AssemblyScanner.cs:49-52 | after a prefix that scans, one more type either scans too or is the first to fail |
| NetAssemblyScanner.TypesModelledStep | ArchitectureAnalyzer.Net.Scanner/AssemblyScanner.cs:49-52 | scanning one more type under a fresh key keeps every earlier type node faithful to its definition |
| NetAssemblyScanner.CreateAssemblyReferences | ArchitectureAnalyzer.Net.Scanner/AssemblyScanner.cs:33-43 | the returned positions hold the module's assembly references in order; existing nodes are unchanged and each new one is a fresh node named after its key |
| NetAssemblyScanner.CreateTypes | ArchitectureAnalyzer.Net.Scanner/AssemblyScanner.cs:45-53 | succeeds exactly when every type scans, else throws the first failing type's exception; the positions hold the types' keys in order and, with distinct keys, every type node is faithful to its definition |
| NetAssemblyScanner.CreateTypeAt | ArchitectureAnalyzer.Net.Scanner/AssemblyScanner.cs:51 | scanning the type at `j` fails exactly with its scan failure, and otherwise extends the positions by its key |
| NetAssemblyScanner.TypeAppended | ArchitectureAnalyzer.Net.Scanner/AssemblyScanner.cs:51-52 | appending a scanned type's position keeps the positions aligned with the definitions' keys and all type nodes faithful |
| NetAssemblyScanner.ReferAssembly | ArchitectureAnalyzer.Net.Scanner/AssemblyScanner.cs:26-27 | the node under the assembly's key is named after it and refers to the module's references; no other earlier node is written and the new ones are fresh |
| NetAssemblyScanner.Scan | ArchitectureAnalyzer.Net.Scanner/AssemblyScanner.cs:24-31 | succeeds exactly when every included type scans, else throws the first failure; the assembly node then holds its name, references and defined types, other assembly nodes are unchanged and new ones fresh |
| NetAssemblyScanner.AssemblyWritten | ArchitectureAnalyzer.Net.Scanner/AssemblyScanner.cs:24-31 | across a scan only the scanned assembly's node is written; the others stay and the appended ones are fresh |
| NetAssemblyScanner.IncludeType | ArchitectureAnalyzer.Net.Scanner/AssemblyScanner.cs:55-63 | no SpecialName bit and no name starting with `<`; `IncludedTypesMembership` proves the kept types are exactly these and `VisibilityIsNotFiltered` that the access bits play no part |
| NetAssemblyScanner.IncludedTypes | ArchitectureAnalyzer.Net.Scanner/AssemblyScanner.cs:45-53 | the module's types that `CreateTypes` scans, in order; `IncludedTypesMembership` proves membership in both directions |
| NetGraphBuilder.GraphBuilder.constructor | ArchitectureAnalyzer.Net.Scanner/GraphBuilder.cs:22-30 | the builder keeps the factory and the transaction it is given |
| NetGraphBuilder.GraphBuilder.Build | ArchitectureAnalyzer.Net.Scanner/GraphBuilder.cs:32-44 | appends to the transaction exactly the build log of the factory's arenas and the scanned assemblies: a clear, the nodes, the DEPENDS_ON edges, then every type's edges |
| NetGraphBuilder.GraphBuilder.CreateAllNodes | ArchitectureAnalyzer.Net.Scanner/GraphBuilder.cs:53-62 | appends one CreateNode per scanned assembly, then per type, method, parameter and property of the factory, in that order |
| NetGraphBuilder.GraphBuilder.CreateNodes | ArchitectureAnalyzer.Net.Scanner/GraphBuilder.cs:64-72 | appends one CreateNode per node, in order |
| NetGraphBuilder.GraphBuilder.CreateEdges | ArchitectureAnalyzer.Net.Scanner/GraphBuilder.cs:78-81 | appends one relationship of the kind from the source to each target, in order |
| NetGraphBuilder.GraphBuilder.ConnectAssemblyReferences | ArchitectureAnalyzer.Net.Scanner/GraphBuilder.cs:74-82 | appends one DEPENDS_ON edge from the assembly to each of its references |
| NetGraphBuilder.GraphBuilder.ConnectTypes | ArchitectureAnalyzer.Net.Scanner/GraphBuilder.cs:84-99 | appends the edges of every type of the factory, in creation order |
| NetGraphBuilder.GraphBuilder.ConnectType | ArchitectureAnalyzer.Net.Scanner/GraphBuilder.cs:90-97 | appends one type's edges: definition, base type, interfaces, then its members |
| NetGraphBuilder.GraphBuilder.ConnectMembers | ArchitectureAnalyzer.Net.Scanner/GraphBuilder.cs:93-97 | appends the method, property, attribute, generic argument and instantiation edges of one type |
| NetGraphBuilder.GraphBuilder.ConnectTypeDefinition | ArchitectureAnalyzer.Net.Scanner/GraphBuilder.cs:101-110 | appends DEFINES_TYPE from the type's assembly, or nothing when the type has none |
| NetGraphBuilder.GraphBuilder.ConnectBaseType | ArchitectureAnalyzer.Net.Scanner/GraphBuilder.cs:112-118 | appends EXTENDS to the base type, or nothing when there is none |
| NetGraphBuilder.GraphBuilder.ConnectInterfaceImplementations | ArchitectureAnalyzer.Net.Scanner/GraphBuilder.cs:120-129 | appends IMPLEMENTS to each listed interface not already implemented by the base type or by another listed interface |
| NetGraphBuilder.GraphBuilder.ConnectAttributes | ArchitectureAnalyzer.Net.Scanner/GraphBuilder.cs:131-137 | appends HAS_ATTRIBUTE to each attribute type |
| NetGraphBuilder.GraphBuilder.ConnectMethods | ArchitectureAnalyzer.Net.Scanner/GraphBuilder.cs:139-145 | appends the edges of each of the type's methods, in order |
| NetGraphBuilder.GraphBuilder.ConnectMethod | ArchitectureAnalyzer.Net.Scanner/GraphBuilder.cs:147-154 | appends DEFINES_METHOD, RETURNS, then the parameter and generic parameter edges of one method |
| NetGraphBuilder.GraphBuilder.ConnectMethodParameters | ArchitectureAnalyzer.Net.Scanner/GraphBuilder.cs:156-170 | appends a DEFINES_PARAMETER and HAS_TYPE pair per parameter |
| NetGraphBuilder.GraphBuilder.ConnectGenericMethodParameters | ArchitectureAnalyzer.Net.Scanner/GraphBuilder.cs:172-178 | appends DEFINES_GENERIC_METHOD_ARG to each generic parameter |
| NetGraphBuilder.GraphBuilder.ConnectGenericTypeArgs | ArchitectureAnalyzer.Net.Scanner/GraphBuilder.cs:180-186 | appends DEFINES_GENERIC_TYPE_ARG to each generic argument |
| NetGraphBuilder.GraphBuilder.ConnectGenericTypeInstantiation | ArchitectureAnalyzer.Net.Scanner/GraphBuilder.cs:188-201 | appends, for an instantiation only, INSTANTIATES_GENERIC_TYPE then one HAS_TYPE_ARGUMENT per argument |
| NetGraphBuilder.GraphBuilder.ConnectProperties | ArchitectureAnalyzer.Net.Scanner/GraphBuilder.cs:203-215 | appends a DEFINES_PROPERTY and HAS_TYPE pair per property |
| NetGraphLaws.EdgesLayout | ArchitectureAnalyzer.Net.Scanner/GraphBuilder.cs:78-81 | one relationship per target, to the targets in their order |
| NetGraphLaws.NodesLayout | ArchitectureAnalyzer.Net.Scanner/GraphBuilder.cs:64-72 | one CreateNode per node, in order |
| NetGraphLaws.NodesLogCount | ArchitectureAnalyzer.Net.Scanner/GraphBuilder.cs:64-72 | a node is created exactly as often as it is listed |
| NetGraphLaws.RefsCount | ArchitectureAnalyzer.Net.Scanner/GraphBuilder.cs:57-61 | the references of one node kind list each position as often as the positions do, and no node of another kind |
| NetGraphLaws.DistinctCount | ArchitectureAnalyzer.Net.Scanner/GraphBuilder.cs:125 | a sequence without repetitions holds each of its elements exactly once |
| NetGraphLaws.EdgesKind | ArchitectureAnalyzer.Net.Scanner/GraphBuilder.cs:78-81 | every event of a connecting loop is a relationship of that loop's kind |
| NetGraphLaws.MemberEdgesOf | ArchitectureAnalyzer.Net.Scanner/GraphBuilder.cs:139-215 | a loop drawing a member kind draws only member edges |
| NetGraphLaws.MethodLogMembers | ArchitectureAnalyzer.Net.Scanner/GraphBuilder.cs:147-178 | a method's edges are all member edges |
| NetGraphLaws.MembersLogMembers | ArchitectureAnalyzer.Net.Scanner/GraphBuilder.cs:93-97 | the steps after the interfaces draw no DEFINES_TYPE, EXTENDS or IMPLEMENTS edge |
| NetGraphLaws.TypeLogParts | ArchitectureAnalyzer.Net.Scanner/GraphBuilder.cs:90-97 | DEFINES_TYPE, EXTENDS and IMPLEMENTS edges of a type come only from their own step |
| NetGraphLaws.TypeDefinitionEdge | ArchitectureAnalyzer.Net.Scanner/GraphBuilder.cs:101-110 | a type gets a DEFINES_TYPE edge exactly when it knows its assembly, from that assembly, and at most once |
| NetGraphLaws.BaseTypeEdge | ArchitectureAnalyzer.Net.Scanner/GraphBuilder.cs:112-118 | a type gets an EXTENDS edge exactly when it has a base type, to that base type, and at most once |
| NetGraphLaws.BaseInterfacesMembership | ArchitectureAnalyzer.Net.Scanner/GraphBuilder.cs:122-123 | the interfaces not to repeat are exactly the base type's and those of every listed interface |
| NetGraphLaws.EdgesCount | ArchitectureAnalyzer.Net.Scanner/GraphBuilder.cs:125-128 | over distinct targets, the relationship to each target is drawn once and to a non-target never |
| NetGraphLaws.RefsDistinct | ArchitectureAnalyzer.Net.Scanner/GraphBuilder.cs:125 | references to distinct positions are distinct, and a position's reference is listed exactly when the position is |
| NetGraphLaws.ImplementsLogCount | ArchitectureAnalyzer.Net.Scanner/GraphBuilder.cs:120-129 | the IMPLEMENTS step draws one edge to an interface exactly when it is listed and not implied by the base type or another listed interface, and none otherwise |
| NetGraphLaws.InterfaceEdge | ArchitectureAnalyzer.Net.Scanner/GraphBuilder.cs:120-129 | among all of a type's edges, the IMPLEMENTS edge to an interface occurs once when it is listed and not implied, and never otherwise |
| NetGraphLaws.InheritedInterfaceNotRepeated | ArchitectureAnalyzer.Net.Scanner.Test/ReflectionScannerTest.cs:69-76 | an interface the base type already implements gets no IMPLEMENTS edge |
| NetGraphLaws.ImpliedInterfaceNotRepeated | ArchitectureAnalyzer.Net.Scanner.Test/ReflectionScannerTest.cs:78-85 | an interface implied by another listed interface gets no IMPLEMENTS edge |
| NetGraphLaws.MethodLayout | ArchitectureAnalyzer.Net.Scanner/GraphBuilder.cs:147-178 | a method's edges are DEFINES_METHOD from the type, RETURNS to the return type, a DEFINES_PARAMETER and HAS_TYPE pair per parameter, then a DEFINES_GENERIC_METHOD_ARG per generic parameter |
| NetGraphLaws.ParametersLayout | ArchitectureAnalyzer.Net.Scanner/GraphBuilder.cs:156-170 | a method's parameter edges are a DEFINES_PARAMETER and HAS_TYPE pair per parameter, in parameter order |
| NetGraphLaws.PropertiesLayout | ArchitectureAnalyzer.Net.Scanner/GraphBuilder.cs:203-215 | a type's property edges are a DEFINES_PROPERTY and HAS_TYPE pair per property, in order |
| NetGraphLaws.InstantiationLayout | ArchitectureAnalyzer.Net.Scanner/GraphBuilder.cs:188-201 | an instantiation gets INSTANTIATES_GENERIC_TYPE to its generic type, then one HAS_TYPE_ARGUMENT per argument; any other type gets neither |
| NetGraphLaws.AllNodesLayout | ArchitectureAnalyzer.Net.Scanner/GraphBuilder.cs:53-62 | the node phase creates exactly as many nodes as the scanned assemblies and the factory's arenas hold, and creates nothing else |
| NetGraphLaws.DependsPhase | ArchitectureAnalyzer.Net.Scanner/GraphBuilder.cs:38-41 | the assembly phase draws DEPENDS_ON edges and nothing else |
| NetGraphLaws.TypesPhase | ArchitectureAnalyzer.Net.Scanner/GraphBuilder.cs:84-99 | the type phase draws relationships, none of them DEPENDS_ON |
| NetGraphLaws.PhasesOrder | ArchitectureAnalyzer.Net.Scanner/GraphBuilder.cs:32-44 | a clear, then node creations, then DEPENDS_ON edges, then other edges, whatever each phase holds |
| NetGraphLaws.BuildOrder | ArchitectureAnalyzer.Net.Scanner/GraphBuilder.cs:32-44 | `Build` clears the store first, creates every node before any relationship, and draws the DEPENDS_ON edges before those of the types |
| NetGraphLaws.KindNodesCount | ArchitectureAnalyzer.Net.Scanner/GraphBuilder.cs:57-61 | the nodes of one kind are created as often as their positions are listed |
| NetGraphLaws.ArenaNodesCount | ArchitectureAnalyzer.Net.Scanner/GraphBuilder.cs:58-61 | each node of an arena is created once and nothing outside it is |
| NetGraphLaws.AllNodesCount | ArchitectureAnalyzer.Net.Scanner/GraphBuilder.cs:53-62 | the node phase creates each node of the factory once and each scanned assembly once per listing |
| NetGraphLaws.NodesAfterClear | ArchitectureAnalyzer.Net.Scanner/GraphBuilder.cs:32-44 | node creations after the clear come from the node phase alone |
| NetGraphLaws.NodesCreatedOnce | ArchitectureAnalyzer.Net.Scanner/GraphBuilder.cs:32-44 | `Build` creates every node of the factory exactly once, a scanned assembly once per listing, and nothing else |
| NetGraphLaws.InstantiationEdges | ArchitectureAnalyzer.Net.Scanner/GraphBuilder.cs:195-200 | an instantiation's edges are INSTANTIATES_GENERIC_TYPE to the generic type, then one HAS_TYPE_ARGUMENT per argument, in order |
| NetGraphLaws.MethodParameterEdges | ArchitectureAnalyzer.Net.Scanner/GraphBuilder.cs:147-170 | a method's parameter edges follow its DEFINES_METHOD and RETURNS edges, two per parameter, in order |
| NetGraphLaws.MethodGenericEdges | ArchitectureAnalyzer.Net.Scanner/GraphBuilder.cs:172-178 | a method's DEFINES_GENERIC_METHOD_ARG edges close its edges, one per generic parameter, in order |
| DotnetMethodScanner.IncludedMethodsArePublic | ArchitectureAnalyzer.DotnetScanner/Scanner/MethodScanner.cs:111-116 | a method the scan keeps is public: private, internal and protected methods give no node |
| DotnetMethodScanner.ListedSpecialNamesAreKept | ArchitectureAnalyzer.DotnetScanner/Scanner/MethodScanner.cs:16-58 | a public constructor or operator is kept although the compiler marks it SpecialName |
| DotnetMethodScanner.AccessorsAreDropped | ArchitectureAnalyzer.DotnetScanner/Scanner/MethodScanner.cs:111-130 | property and event accessors carry SpecialName and are not listed, so they are dropped |
| DotnetMethodScanner.OrdinaryPublicMethodsAreKept | ArchitectureAnalyzer.DotnetScanner/Scanner/MethodScanner.cs:111-130 | a public method without SpecialName is kept, whatever its name |
| DotnetMethodScanner.SignatureString | ArchitectureAnalyzer.DotnetScanner/Scanner/MethodScanner.cs:91-94 | the signature string holds at least the name and the parentheses and colon around the parameter and return ids |
| DotnetMethodScanner.SignatureStringsKeepNames | ArchitectureAnalyzer.DotnetScanner/Scanner/MethodScanner.cs:91-94 | two methods whose names have no parenthesis share a signature string only when they share a name |
| DotnetMethodScanner.ParametersBelow | ArchitectureAnalyzer.DotnetScanner/Scanner/MethodScanner.cs:76 | every parameter type of a method's signature blob lies inside the blob |
| DotnetMethodScanner.ParameterIds | ArchitectureAnalyzer.DotnetScanner/Scanner/MethodScanner.cs:76 | a decoded parameter list has one id per parameter type of the signature |
| DotnetMethodScanner.MethodModelledExtended | ArchitectureAnalyzer.DotnetScanner/Scanner/MethodScanner.cs:80-86 | a method node stays faithful to its definition when more type nodes are appended |
| DotnetMethodScanner.GrowsThenWrite | ArchitectureAnalyzer.DotnetScanner/Model/NodeFactory.cs:46-55 | growing an arena and then writing one node leaves every other node grown |
| DotnetMethodScanner.DecodeSignature | ArchitectureAnalyzer.DotnetScanner/Scanner/MethodScanner.cs:75-76 | succeeds exactly when the return type and every parameter type decode, else throws the first failure; the positions hold the return id and the parameter ids in order |
| DotnetMethodScanner.RecordMethod | ArchitectureAnalyzer.DotnetScanner/Scanner/MethodScanner.cs:80-86 | a method with a null name throws ArgumentNull and writes nothing; otherwise the node under its name carries its name, flags, return type and parameter types, and no other method node changes |
| DotnetMethodScanner.ScanMethod | ArchitectureAnalyzer.DotnetScanner/Scanner/MethodScanner.cs:65-89 | a method `IncludeMethod` drops yields null and changes nothing; an included one fails exactly with its first decoding failure, writing no method node, and otherwise yields the node under its name, faithful to the definition |
| DotnetMethodScanner.IncludeMethod | ArchitectureAnalyzer.DotnetScanner/Scanner/MethodScanner.cs:111-129 | public, and either a listed special name or no SpecialName bit; `IncludedMethodsArePublic`, `ListedSpecialNamesAreKept`, `AccessorsAreDropped` and `OrdinaryPublicMethodsAreKept` prove its cases |
| DotnetMethodScanner.IsAbstract | ArchitectureAnalyzer.DotnetScanner/Scanner/MethodScanner.cs:96-99 | the method's Abstract bit; `RecordMethod` stores it on the node |
| DotnetMethodScanner.IsStatic | ArchitectureAnalyzer.DotnetScanner/Scanner/MethodScanner.cs:101-104 | the method's Static bit; `RecordMethod` stores it on the node |
| DotnetMethodScanner.IsSealed | ArchitectureAnalyzer.DotnetScanner/Scanner/MethodScanner.cs:106-109 | the method's Final bit; `RecordMethod` stores it on the node |
| DotnetTypeScanner.NonPublicTypesAreDropped | ArchitectureAnalyzer.DotnetScanner/Scanner/TypeScanner.cs:145-150 | internal and nested types are never scanned, whatever their name: visibility is checked first |
| DotnetTypeScanner.IncludeTypeThrows | ArchitectureAnalyzer.DotnetScanner/Scanner/TypeScanner.cs:145-165 | the inclusion test throws, with NullReference, exactly for a public, non-SpecialName type whose name is null |
| DotnetTypeScanner.IncludedTypesAreNamedAndPublic | ArchitectureAnalyzer.DotnetScanner/Scanner/TypeScanner.cs:145-165 | a scanned type is public, not SpecialName, and has a name that does not start with `<` |
| DotnetTypeScanner.EntityId | ArchitectureAnalyzer.DotnetScanner/Scanner/TypeScanner.cs:113-131 | a nil handle and a handle of another kind give no type; a definition or reference handle gives the id of the row it names |
| DotnetTypeScanner.TypeClassOf | ArchitectureAnalyzer.DotnetScanner/Scanner/TypeScanner.cs:58-74 | a type is an interface exactly when its Interface bit is set, an enum exactly when that bit is clear and its base type's id is `System.Enum`, a class otherwise |
| DotnetTypeScanner.FlagsAgreeAcrossScanners | ArchitectureAnalyzer.DotnetScanner/Scanner/TypeScanner.cs:76-92 | both generations compute sealed, static and abstract alike from the same attribute bits, and at most one of them holds |
| DotnetTypeScanner.InterfaceIds | ArchitectureAnalyzer.DotnetScanner/Scanner/TypeScanner.cs:99-111 | the interfaces added are the leading ones that resolve, in order, stopping at the first that does not |
| DotnetTypeScanner.InterfacesAfterUnresolvedAreLost | ArchitectureAnalyzer.DotnetScanner/Scanner/TypeScanner.cs:104-107 | interfaces after an unresolvable one are lost, even when they resolve |
| DotnetTypeScanner.InterfaceIdsStep | ArchitectureAnalyzer.DotnetScanner/Scanner/TypeScanner.cs:101-110 | after a prefix of resolving interfaces, the next one resolves exactly when the loop adds it |
| DotnetTypeScanner.TypeModelledExtended | ArchitectureAnalyzer.DotnetScanner/Scanner/TypeScanner.cs:29-40 | a type node stays faithful to its definition when more type nodes are appended |
| DotnetTypeScanner.InternType | ArchitectureAnalyzer.DotnetScanner/Model/NodeFactory.cs:27-30 | interning a non-null id cannot throw and yields the node under that id; earlier nodes only grow |
| DotnetTypeScanner.GetTypeFromTypeDefinitionHandle | ArchitectureAnalyzer.DotnetScanner/Scanner/TypeScanner.cs:139-143 | yields the node under the id of the handle's definition row |
| DotnetTypeScanner.GetTypeFromTypeReferenceHandle | ArchitectureAnalyzer.DotnetScanner/Scanner/TypeScanner.cs:133-137 | yields the node under the id of the handle's reference row |
| DotnetTypeScanner.GetTypeFromEntityHandle | ArchitectureAnalyzer.DotnetScanner/Scanner/TypeScanner.cs:113-131 | yields null, changing nothing, exactly when the handle is nil or of another kind; otherwise the node under the handle's id |
| DotnetTypeScanner.GetTypeClass | ArchitectureAnalyzer.DotnetScanner/Scanner/TypeScanner.cs:58-74 | computes the type's class, interning the base type on the way when the type is not an interface |
| DotnetTypeScanner.CreateTypeNode | ArchitectureAnalyzer.DotnetScanner/Scanner/TypeScanner.cs:29-35 | the node under the type's id gets its class, name, namespace and flags; other nodes only grow |
| DotnetTypeScanner.SetBaseType | ArchitectureAnalyzer.DotnetScanner/Scanner/TypeScanner.cs:94-97 | the node's base type is the node of its base handle, or null; its other fields are unchanged |
| DotnetTypeScanner.GrowsButTwice | ArchitectureAnalyzer.DotnetScanner/Model/NodeFactory.cs:46-55 | two steps that grow the arena except at one node compose into one |
| DotnetTypeScanner.AddInterface | ArchitectureAnalyzer.DotnetScanner/Scanner/TypeScanner.cs:103-109 | an interface that resolves is appended to the node's `Implements`; one that does not changes nothing |
| DotnetTypeScanner.InterfacesAddedStep | ArchitectureAnalyzer.DotnetScanner/Scanner/TypeScanner.cs:101-110 | an interface that resolves moves the loop one handle on, with its position added |
| DotnetTypeScanner.AddNextInterface | ArchitectureAnalyzer.DotnetScanner/Scanner/TypeScanner.cs:101-110 | one turn of the loop either adds the next interface or stops exactly where the resolving prefix ends |
| DotnetTypeScanner.SetImplementedInterfaces | ArchitectureAnalyzer.DotnetScanner/Scanner/TypeScanner.cs:99-111 | `Implements` gains exactly the leading resolving interfaces, in order; the node's other fields are unchanged |
| DotnetTypeScanner.ScannedMethods | ArchitectureAnalyzer.DotnetScanner/Scanner/TypeScanner.cs:43-53 | the names of the kept methods, at most one per method, or the first failure |
| DotnetTypeScanner.ScannedMethodsFail | ArchitectureAnalyzer.DotnetScanner/Scanner/TypeScanner.cs:43-53 | the method loop fails exactly when some method throws, and then with the failure of the first that does |
| DotnetTypeScanner.ScannedMethodsAreIncluded | ArchitectureAnalyzer.DotnetScanner/Scanner/TypeScanner.cs:43-53 | every name the loop adds is the name of a method `IncludeMethod` keeps |
| DotnetTypeScanner.MethodEdges | ArchitectureAnalyzer.DotnetScanner/Scanner/TypeScanner.cs:52 | one DEFINES_METHOD edge from the type to each kept method, in order |
| DotnetTypeScanner.MethodEdgesSnoc | ArchitectureAnalyzer.DotnetScanner/Scanner/TypeScanner.cs:52 | one more kept method adds its one edge at the end |
| DotnetTypeScanner.ScannedMethodsStep | ArchitectureAnalyzer.DotnetScanner/Scanner/TypeScanner.cs:43-53 | the loop over one more method either passes the prefix's failure on or adds that method's outcome |
| DotnetTypeScanner.MethodsScannedSkip | ArchitectureAnalyzer.DotnetScanner/Scanner/TypeScanner.cs:47-50 | a method `ScanMethod` drops moves the loop on with no edge |
| DotnetTypeScanner.MethodsScannedKeep | ArchitectureAnalyzer.DotnetScanner/Scanner/TypeScanner.cs:52 | a kept method with its edge logged moves the loop on |
| DotnetTypeScanner.Kept | ArchitectureAnalyzer.DotnetScanner/Scanner/TypeScanner.cs:47-52 | a dropped method adds no position and a kept one exactly its own |
| DotnetTypeScanner.ScannedMethodsPrefixError | ArchitectureAnalyzer.DotnetScanner/Scanner/TypeScanner.cs:43-53 | a failing prefix is the failure of the whole loop: the loop stops there |
| DotnetTypeScanner.ScanNextMethod | ArchitectureAnalyzer.DotnetScanner/Scanner/TypeScanner.cs:45-52 | scans one method and logs its edge when kept; fails exactly as the loop over the prefix does |
| DotnetTypeScanner.ScanMethods | ArchitectureAnalyzer.DotnetScanner/Scanner/TypeScanner.cs:42-53 | succeeds exactly when no method throws, else with the first failure; the kept positions hold the kept names and one DEFINES_METHOD edge is logged per kept method, also before a failure |
| DotnetTypeScanner.SetTypeReferences | ArchitectureAnalyzer.DotnetScanner/Scanner/TypeScanner.cs:39-40 | with the properties written, the base type and interfaces complete a node faithful to the definition |
| DotnetTypeScanner.WriteType | ArchitectureAnalyzer.DotnetScanner/Scanner/TypeScanner.cs:29-40 | the node under the type's id is faithful to its definition and exactly one CreateNode for it is logged |
| DotnetTypeScanner.ScanIncludedType | ArchitectureAnalyzer.DotnetScanner/Scanner/TypeScanner.cs:29-55 | the node is faithful and created, then the method edges follow; the scan fails exactly as the method loop does |
| DotnetTypeScanner.ScanType | ArchitectureAnalyzer.DotnetScanner/Scanner/TypeScanner.cs:20-56 | a type with a null name throws NullReference and an excluded type gives null, both changing nothing; an included one is interned, written and created, its kept methods linked, and any method failure is passed on |
| DotnetTypeScanner.IncludeType | ArchitectureAnalyzer.DotnetScanner/Scanner/TypeScanner.cs:145-165 | public, no SpecialName bit and a name not starting with `<`; `NonPublicTypesAreDropped`, `IncludeTypeThrows` and `IncludedTypesAreNamedAndPublic` prove its cases, including the NullReference on a null name |
| DotnetTypeScanner.IsSealed | ArchitectureAnalyzer.DotnetScanner/Scanner/TypeScanner.cs:76-80 | Sealed without Abstract; `FlagsAgreeAcrossScanners` proves it equals the newer scanner's flag |
| DotnetTypeScanner.IsStatic | ArchitectureAnalyzer.DotnetScanner/Scanner/TypeScanner.cs:82-86 | Sealed and Abstract together; `FlagsAgreeAcrossScanners` proves it equals the newer scanner's flag |
| DotnetTypeScanner.IsAbstract | ArchitectureAnalyzer.DotnetScanner/Scanner/TypeScanner.cs:88-92 | Abstract without Sealed; `FlagsAgreeAcrossScanners` proves it equals the newer scanner's flag |
| DotnetAssemblyScanner.ReferenceIds | ArchitectureAnalyzer.DotnetScanner/Scanner/AssemblyScanner.cs:32-35 | the reference ids, one per reference and in order, are their names; the lookup throws ArgumentNull exactly when some reference has no name |
| DotnetAssemblyScanner.TypeFailure | ArchitectureAnalyzer.DotnetScanner/Scanner/TypeScanner.cs:20-56 | scanning a type throws exactly when its name is null, or when it is included and one of its methods throws |
| DotnetAssemblyScanner.ScannedTypes | ArchitectureAnalyzer.DotnetScanner/Scanner/AssemblyScanner.cs:39-49 | the ids of the kept types, at most one per definition, or the first failure |
| DotnetAssemblyScanner.ScannedTypesStep | ArchitectureAnalyzer.DotnetScanner/Scanner/AssemblyScanner.cs:39-49 | the loop over one more type either passes the prefix's failure on or adds that type's outcome |
| DotnetAssemblyScanner.ScannedTypesPrefixError | ArchitectureAnalyzer.DotnetScanner/Scanner/AssemblyScanner.cs:39-49 | a failing prefix is the failure of the whole type loop: the scan stops there |
| DotnetAssemblyScanner.ScannedTypesFail | ArchitectureAnalyzer.DotnetScanner/Scanner/AssemblyScanner.cs:39-49 | the type loop fails exactly when some type throws, and then with the failure of the first that does |
| DotnetAssemblyScanner.ScannedTypesAreIncluded | ArchitectureAnalyzer.DotnetScanner/Scanner/AssemblyScanner.cs:41-47 | every type the loop adds is an included definition: public, named and not compiler-generated |
| DotnetAssemblyScanner.TypeDefinitionsValid | ArchitectureAnalyzer.DotnetScanner/Scanner/AssemblyScanner.cs:39 | every type definition row of a well-formed reader is valid |
| DotnetAssemblyScanner.AssemblyReferencesValid | ArchitectureAnalyzer.DotnetScanner/Scanner/AssemblyScanner.cs:32-33 | every assembly reference row of a well-formed reader names a valid string |
| DotnetAssemblyScanner.AssemblyFailure | ArchitectureAnalyzer.DotnetScanner/Scanner/AssemblyScanner.cs:23-52 | a nameless assembly makes the scan throw ArgumentNull first |
| DotnetAssemblyScanner.Nodes | ArchitectureAnalyzer.DotnetScanner/Scanner/AssemblyScanner.cs:47 | the kept types' nodes, one per kept type, in order |
| DotnetAssemblyScanner.ScanEventsAppend | ArchitectureAnalyzer.DotnetScanner/Scanner/AssemblyScanner.cs:41-48 | one kept type logs its CreateNode, its method edges and then its DEFINES_TYPE edge |
| DotnetAssemblyScanner.TypeEventsSnoc | ArchitectureAnalyzer.DotnetScanner/Scanner/AssemblyScanner.cs:39-49 | one more kept type adds its own events and its node at the end |
| DotnetAssemblyScanner.DefinedTypesAddedNone | ArchitectureAnalyzer.DotnetScanner/Scanner/AssemblyScanner.cs:39-49 | before the loop no type has been added |
| DotnetAssemblyScanner.DefinedTypesAddedStep | ArchitectureAnalyzer.DotnetScanner/Scanner/AssemblyScanner.cs:47 | adding one type to `DefinedTypes` moves the loop on by that type |
| DotnetAssemblyScanner.TypesScannedKeep | ArchitectureAnalyzer.DotnetScanner/Scanner/AssemblyScanner.cs:47-48 | a kept type with its DEFINES_TYPE edge logged moves the loop on |
| DotnetAssemblyScanner.AddDefinedType | ArchitectureAnalyzer.DotnetScanner/Scanner/AssemblyScanner.cs:47 | the assembly node's `DefinedTypes` gains the type at the end; nothing else changes |
| DotnetAssemblyScanner.ScanOneType | ArchitectureAnalyzer.DotnetScanner/Scanner/AssemblyScanner.cs:41-45 | fails exactly with the type's failure; yields null, logging nothing and leaving the type arena as it was, exactly for an excluded type; a kept type's scan records that definition, only its node is written, and when its id is new its node models it |
| DotnetAssemblyScanner.KeepType | ArchitectureAnalyzer.DotnetScanner/Scanner/AssemblyScanner.cs:47-48 | a kept type is added to the assembly and its DEFINES_TYPE edge is logged; the type nodes are left as they are |
| DotnetAssemblyScanner.ScanNextType | ArchitectureAnalyzer.DotnetScanner/Scanner/AssemblyScanner.cs:39-49 | one turn of the type loop keeps the loop's invariant one definition on: only kept types' nodes are written, and with distinct ids each models its definition |
| DotnetAssemblyScanner.ScanTypes | ArchitectureAnalyzer.DotnetScanner/Scanner/AssemblyScanner.cs:37-49 | succeeds exactly when no type throws, else with the first failure; the assembly gains the kept types in order, each gets a DEFINES_TYPE edge after its own events, only kept types' nodes change, and when no id is kept twice each kept node holds its definition's name, namespace, class, modifiers, base type and interfaces |
| DotnetAssemblyScanner.TypeEventsCreateNoMethodNode | ArchitectureAnalyzer.DotnetScanner/Scanner/AssemblyScanner.cs:39-49 | the type loop creates type nodes only, while its DEFINES_METHOD edges point at methods |
| DotnetAssemblyScanner.ReferencesInternedStep | ArchitectureAnalyzer.DotnetScanner/Scanner/AssemblyScanner.cs:54-57 | one more reference interned moves the reference loop on, the earlier ones staying interned |
| DotnetAssemblyScanner.ReferencesInternedAll | ArchitectureAnalyzer.DotnetScanner/Scanner/AssemblyScanner.cs:32-35 | a loop through every reference has interned exactly their ids, in order |
| DotnetAssemblyScanner.ScanReferences | ArchitectureAnalyzer.DotnetScanner/Scanner/AssemblyScanner.cs:32-35 | succeeds exactly when every reference has a name, else throws ArgumentNull; the list refers to the reference names in order |
| DotnetAssemblyScanner.CreateAssembly | ArchitectureAnalyzer.DotnetScanner/Scanner/AssemblyScanner.cs:25-30 | a nameless assembly throws ArgumentNull before anything changes; otherwise the node under its name holds the name and one CreateNode is logged |
| DotnetAssemblyScanner.SetReferences | ArchitectureAnalyzer.DotnetScanner/Scanner/AssemblyScanner.cs:32 | the assembly node's References become the list; nothing else changes |
| DotnetAssemblyScanner.AssemblyNodeWritten | ArchitectureAnalyzer.DotnetScanner/Scanner/AssemblyScanner.cs:32-49 | the assembly node keeps its name, holds the reference list and gains the kept types; every other node only grows |
| DotnetAssemblyScanner.ScanContents | ArchitectureAnalyzer.DotnetScanner/Scanner/AssemblyScanner.cs:32-49 | throws ArgumentNull on a nameless reference, else the first type failure; otherwise the node holds the references and the kept types, and with distinct kept ids each kept type's node models its definition |
| DotnetAssemblyScanner.Scan | ArchitectureAnalyzer.DotnetScanner/Scanner/AssemblyScanner.cs:23-52 | throws exactly when the assembly, a reference or a type fails, with the first failure; otherwise the node under the assembly's name holds it, its references and its kept types, the log gains the assembly's node then each kept type's events, only kept types' nodes are written, and with distinct kept ids each holds its definition's name, namespace, class, modifiers, base type and interfaces |
| DotnetAssemblyScanner.ScanModelledKept | ArchitectureAnalyzer.DotnetScanner/Scanner/TypeScanner.cs:29-40 | a kept type's node that no later write touches still models its definition as the key arena grows |
| DotnetAssemblyScanner.TypesModelledApart | ArchitectureAnalyzer.DotnetScanner/Scanner/AssemblyScanner.cs:39-49 | writes only at nodes whose ids no kept type has leave every kept type's node modelling its definition |
| DotnetAssemblyScanner.TypesModelledSnoc | ArchitectureAnalyzer.DotnetScanner/Scanner/AssemblyScanner.cs:41 | one more kept type with a new id, written at its own node, keeps every earlier kept type modelled and adds itself |
| DotnetAssemblyScanner.TypeKeptModelled | ArchitectureAnalyzer.DotnetScanner/Scanner/AssemblyScanner.cs:41 | a kept type's write joins the loop's written nodes, and with distinct ids its node models it beside the earlier ones |
| DotnetAssemblyScanner.TypeLoopFailed | ArchitectureAnalyzer.DotnetScanner/Scanner/AssemblyScanner.cs:41 | a type whose scan throws ends the type loop with that failure |
| DotnetAssemblyScanner.TypeLoopSkipped | ArchitectureAnalyzer.DotnetScanner/Scanner/AssemblyScanner.cs:42-45 | a type that is not included moves the type loop on and changes nothing |
| DotnetAssemblyScanner.TypeLoopKept | ArchitectureAnalyzer.DotnetScanner/Scanner/AssemblyScanner.cs:47-48 | a kept type added to the assembly with its edges logged moves the type loop on by its id |
| DotnetReflectionScanner.Records | ArchitectureAnalyzer.DotnetScanner/Scanner/ReflectionScanner.cs:44-48 | the node records the connecting loop reads, one per arena node, in order |
| DotnetReflectionScanner.ModelsOf | ArchitectureAnalyzer.DotnetScanner/Scanner/ReflectionScanner.cs:44-48 | the snapshot the connecting loop reads has one assembly and one type record per arena node |
| DotnetReflectionScanner.ScansLogSnoc | ArchitectureAnalyzer.DotnetScanner/Scanner/ReflectionScanner.cs:42 | one more assembly scanned adds its own events at the end of the scan log |
| DotnetReflectionScanner.Failures | ArchitectureAnalyzer.DotnetScanner/Scanner/ReflectionScanner.cs:42 | one outcome per assembly, each the failure its scan would throw |
| DotnetReflectionScanner.Names | ArchitectureAnalyzer.DotnetScanner/Scanner/ReflectionScanner.cs:42 | one assembly name per reader, as its metadata holds it |
| DotnetReflectionScanner.FirstFailureFirst | ArchitectureAnalyzer.DotnetScanner/Scanner/ReflectionScanner.cs:42 | there is no first failure exactly when no scan fails; otherwise it is the failure of the first scan that fails |
| DotnetReflectionScanner.FirstFailureStep | ArchitectureAnalyzer.DotnetScanner/Scanner/ReflectionScanner.cs:42 | one more scan either keeps the earlier failure or contributes its own outcome |
| DotnetReflectionScanner.FirstFailurePrefix | ArchitectureAnalyzer.DotnetScanner/Scanner/ReflectionScanner.cs:42 | after a failure the later scans change nothing: the first failure stays the one reported |
| DotnetReflectionScanner.ScanFailureFirst | ArchitectureAnalyzer.DotnetScanner/Scanner/ReflectionScanner.cs:38-51 | `Scan` fails exactly when some assembly's scan fails, and then with the failure of the first that does |
| DotnetReflectionScanner.NamedSnoc | ArchitectureAnalyzer.DotnetScanner/Scanner/ReflectionScanner.cs:42 | one more scanned assembly, interned under its name, keeps the earlier ones named |
| DotnetReflectionScanner.ScanLoopFailed | ArchitectureAnalyzer.DotnetScanner/Scanner/ReflectionScanner.cs:42 | a scan of the next assembly that fails ends the scanning loop with its failure |
| DotnetReflectionScanner.ScanLoopScanned | ArchitectureAnalyzer.DotnetScanner/Scanner/ReflectionScanner.cs:42 | a scan of the next assembly that returns takes the scanning loop one assembly further |
| DotnetReflectionScanner.ReflectionScanner.constructor | ArchitectureAnalyzer.DotnetScanner/Scanner/ReflectionScanner.cs:26-36 | the scanner keeps the assemblies, the factory and the database it is given |
| DotnetReflectionScanner.ReflectionScanner.Scan | ArchitectureAnalyzer.DotnetScanner/Scanner/ReflectionScanner.cs:38-51 | fails exactly when some assembly scan fails, with the first failure; otherwise each assembly node is interned under its name, each scan's type nodes are those of its own assembly's kept types and, when no type id is kept twice, hold their definitions' names, base types and interfaces, and the log gains every scan's events, then every assembly's connections, read from those nodes |
| DotnetReflectionScanner.ReflectionScanner.ScanAssemblies | ArchitectureAnalyzer.DotnetScanner/Scanner/ReflectionScanner.cs:42 | scans the assemblies in order, failing exactly as the first failing scan does; otherwise one node per assembly, under its name, each scan's type nodes are the kept types of its own assembly, and when no type id is kept twice each such node models its definition |
| DotnetReflectionScanner.ReflectionScanner.ScanNext | ArchitectureAnalyzer.DotnetScanner/Scanner/ReflectionScanner.cs:42 | one step of the scanning loop keeps its invariant, one assembly on |
| DotnetReflectionScanner.ReflectionScanner.ConnectAll | ArchitectureAnalyzer.DotnetScanner/Scanner/ReflectionScanner.cs:44-48 | appends, for each scanned assembly in order, its DEPENDS_ON edges and then its types' edges |
| DotnetReflectionScanner.ReflectionScanner.ConnectAssemblyReferences | ArchitectureAnalyzer.DotnetScanner/Scanner/ReflectionScanner.cs:53-61 | appends one DEPENDS_ON edge from the assembly to each reference |
| DotnetReflectionScanner.ReflectionScanner.ConnectTypes | ArchitectureAnalyzer.DotnetScanner/Scanner/ReflectionScanner.cs:63-72 | appends, for each defined type in order, its EXTENDS and then its IMPLEMENTS edges |
| DotnetReflectionScanner.ReflectionScanner.ConnectBaseType | ArchitectureAnalyzer.DotnetScanner/Scanner/ReflectionScanner.cs:74-80 | appends EXTENDS to the base type, or nothing without one |
| DotnetReflectionScanner.ReflectionScanner.ConnectInterfaceImplementations | ArchitectureAnalyzer.DotnetScanner/Scanner/ReflectionScanner.cs:82-91 | appends IMPLEMENTS to each listed interface that neither the base type nor another listed interface implements |
| DotnetReflectionLaws.DependsLayout | ArchitectureAnalyzer.DotnetScanner/Scanner/ReflectionScanner.cs:53-61 | one DEPENDS_ON edge per reference, to the references in their order |
| DotnetReflectionLaws.ImplementsLogEdges | ArchitectureAnalyzer.DotnetScanner/Scanner/ReflectionScanner.cs:82-91 | the IMPLEMENTS step draws only IMPLEMENTS edges from the type, each to an interface it connects |
| DotnetReflectionLaws.BaseTypeEdge | ArchitectureAnalyzer.DotnetScanner.Test/Scanner/ReflectionScannerTest.cs:25-31 | a type gets an EXTENDS edge exactly when it has a base type, to that base type, and at most one |
| DotnetReflectionLaws.InheritedInterfacesMembership | ArchitectureAnalyzer.DotnetScanner/Scanner/ReflectionScanner.cs:84-85 | the interfaces not to repeat are exactly the base type's and those of every listed interface |
| DotnetReflectionLaws.ImplementsLogCount | ArchitectureAnalyzer.DotnetScanner/Scanner/ReflectionScanner.cs:82-91 | the IMPLEMENTS step draws one edge to a listed interface that is not inherited or implied, and none to any other |
| DotnetReflectionLaws.InterfaceEdge | ArchitectureAnalyzer.DotnetScanner.Test/Scanner/ReflectionScannerTest.cs:33-39 | among a type's edges, the IMPLEMENTS edge to an interface occurs once when listed and neither inherited nor implied, and never otherwise |
| DotnetReflectionLaws.InheritedInterfaceNotRepeated | ArchitectureAnalyzer.DotnetScanner.Test/Scanner/ReflectionScannerTest.cs:57-64 | an interface the base type already implements gets no IMPLEMENTS edge |
| DotnetReflectionLaws.ImpliedInterfaceNotRepeated | ArchitectureAnalyzer.DotnetScanner.Test/Scanner/ReflectionScannerTest.cs:66-73 | an interface implied by another listed interface gets no IMPLEMENTS edge |
| DotnetReflectionLaws.DirectInterfaceConnectedOnce | ArchitectureAnalyzer.DotnetScanner.Test/Scanner/ReflectionScannerTest.cs:33-39 | a listed interface that is neither inherited nor implied gets exactly one IMPLEMENTS edge |
| DotnetReflectionLaws.TypeLogEdges | ArchitectureAnalyzer.DotnetScanner/Scanner/ReflectionScanner.cs:69-70 | a type's edges are EXTENDS or IMPLEMENTS edges from that type |
| DotnetReflectionLaws.TypesLogEdges | ArchitectureAnalyzer.DotnetScanner/Scanner/ReflectionScanner.cs:63-72 | `ConnectTypes` draws only EXTENDS and IMPLEMENTS edges, and only from the types the assembly defines |
| DotnetReflectionLaws.DependsLogEdges | ArchitectureAnalyzer.DotnetScanner/Scanner/ReflectionScanner.cs:53-61 | `ConnectAssemblyReferences` draws DEPENDS_ON edges from the assembly to its references, and nothing else |
| DotnetReflectionLaws.ReferencesBeforeTypes | ArchitectureAnalyzer.DotnetScanner/Scanner/ReflectionScanner.cs:46-47 | connecting an assembly draws all its DEPENDS_ON edges before any edge of its types |
| DotnetReflectionLaws.OnlyDefinedTypesConnected | ArchitectureAnalyzer.DotnetScanner/Scanner/ReflectionScanner.cs:44-48 | every connection is a relationship from a scanned assembly to its reference, or from a type some scanned assembly defines |
| DotnetReflectionLaws.ConnectAllRelationships | ArchitectureAnalyzer.DotnetScanner/Scanner/ReflectionScanner.cs:44-48 | the connecting loop creates no nodes |
| DotnetReflectionLaws.ScansLogCreates | ArchitectureAnalyzer.DotnetScanner/Scanner/AssemblyScanner.cs:30 | each assembly scan creates the node of the assembly it returns |
| DotnetReflectionLaws.ScannedBeforeConnected | ArchitectureAnalyzer.DotnetScanner/Scanner/ReflectionScanner.cs:42-48 | every assembly is scanned before any is connected: all scan events precede the first connection, and each connected assembly's node was created before it |
| DotnetReflectionLaws.ConnectAllAppend | ArchitectureAnalyzer.DotnetScanner/Scanner/ReflectionScanner.cs:44-48 | the connecting loop handles the assemblies one after another, so an assembly listed twice is connected twice |
| DotnetReflectionScanner.KeptTypes | ArchitectureAnalyzer.DotnetScanner/Scanner/AssemblyScanner.cs:39-49 | when the scan of the assembly returns, the ids its type loop keeps, as `ScannedTypes` computes them |
| DotnetReflectionScanner.Kept | ArchitectureAnalyzer.DotnetScanner/Scanner/ReflectionScanner.cs:42 | one list of kept type ids per assembly, each its own reader's |
| DotnetReflectionScanner.TypesKeptSnoc | ArchitectureAnalyzer.DotnetScanner/Scanner/ReflectionScanner.cs:42 | one more scan whose nodes refer to its assembly's kept types keeps every earlier scan's nodes referring to theirs while the type arena grows |
| DotnetReflectionScanner.TypesKeptAll | ArchitectureAnalyzer.DotnetScanner/Scanner/ReflectionScanner.cs:42 | after every assembly, each scan's type nodes refer to the kept types of its own assembly |
| DotnetReflectionScanner.AllKeptHas | ArchitectureAnalyzer.DotnetScanner/Scanner/ReflectionScanner.cs:42 | every type id some assembly keeps is among the ids all assemblies keep |
| DotnetReflectionScanner.AllKeptSnoc | ArchitectureAnalyzer.DotnetScanner/Scanner/ReflectionScanner.cs:42 | one more assembly adds its kept ids at the end of all kept ids |
| DotnetReflectionScanner.AllModelledApart | ArchitectureAnalyzer.DotnetScanner/Scanner/ReflectionScanner.cs:42 | a scan writing only nodes under ids no earlier assembly kept leaves their kept types modelled |
| DotnetReflectionScanner.AllModelledSnoc | ArchitectureAnalyzer.DotnetScanner/Scanner/ReflectionScanner.cs:42 | one more scan whose kept types are modelled joins the earlier modelled scans |
| DotnetReflectionScanner.TypesLoopNone | ArchitectureAnalyzer.DotnetScanner/Scanner/ReflectionScanner.cs:42 | before any scan the type-node invariant of the scanning loop holds |
| DotnetReflectionScanner.TypesLoopSnoc | ArchitectureAnalyzer.DotnetScanner/Scanner/ReflectionScanner.cs:42 | one more assembly scan, as the assembly scan promises it, keeps the type-node invariant one assembly further |
| DotnetReflectionScanner.TypesLoopAll | ArchitectureAnalyzer.DotnetScanner/Scanner/ReflectionScanner.cs:42 | after every assembly, each scan's nodes refer to its own kept types and, when no id is kept twice, model their definitions |
| DotnetReflectionScanner.ReflectionScanner.ScanEach | ArchitectureAnalyzer.DotnetScanner/Scanner/ReflectionScanner.cs:42 | scans assembly after assembly until one throws, keeping the scanning invariant and the type-node invariant |

## Left out

- Opening files, PE images and Mono.Cecil modules; ArchitectureAnalyzer.Net.Scanner/ReflectionScanner.cs as a whole; `ScanAssembly` of the older ReflectionScanner with its catch-log-rethrow; and the transaction's commit. These are I/O and resource handling. Each scan of the older ReflectionScanner takes an already opened metadata reader.
- The metadata readers themselves (System.Reflection.Metadata heaps, handles and `DecodeSignature`; Mono.Cecil definitions). They are input datatypes. A Cecil type, method, parameter or property reference carries the key that the factory overloads, which this model does not include, compute from it. A System.Reflection.Metadata reader is required to be well formed: every handle names a row and every string handle names a heap entry.
- Logging, dependency injection, configuration, the command line, ModelConverter and the Neo4j adapters. They have no scanning behaviour, and ModelConverter depends on runtime reflection.
- C# integer overflow: ids, array bounds (`lowerBound + size - 1`) and the id counter are unbounded integers.
- The static `_nextId` counter is shared by all factory instances of one node kind. Here each map owns its counter, and its start value is a constructor parameter.
- NetGraphBuilder.GraphBuilder.Build: does not prove that every stored position resolves to an arena node. Lookups in the graph builder are total, and an unresolved position reads as a default node.
- NetTypeScanner.ScanType: on a thrown exception only the factory invariants and the growth of the arenas are promised, not the partial writes. No exception in the newer generation is caught before the graph is built.
- NetAssemblyScanner.Scan: on a thrown exception only the factory invariants and the growth of the arenas are promised.
- DotnetAssemblyScanner.Scan, DotnetReflectionScanner.ReflectionScanner.Scan and DotnetReflectionScanner.ReflectionScanner.ScanAssemblies: on a thrown exception only the factory invariants and the exception itself are promised. Nothing is said about the nodes interned or the database calls made before the throw, and those calls persist because the older generation writes straight to the database.
- DotnetAssemblyScanner.Scan: the contents of the kept types' nodes (`TypesModelled`) are promised only when the assembly keeps no type id twice. When two definitions share an id they share one node, and the later scan rewrites it, so the earlier definition's contents are no longer there.
- DotnetReflectionScanner.ReflectionScanner.Scan and DotnetReflectionScanner.ReflectionScanner.ScanAssemblies: the contents of the type nodes (`AllModelled`) are promised only when no type id is kept twice, neither within one assembly nor across assemblies (`NoIdKeptTwice`). A later assembly that defines a type under an id already kept rewrites that node. The assembly nodes' `DefinedTypes` and `References` are promised by each assembly's own scan and are not carried to the end of the scanning loop.
- Serialisation of the members the later Net.Model classes add, such as `NetType.Visibility`: `SerializedType` follows NetType.cs as declared.
- NetTypeScanner.ScanType: the class and the display name of the scanned node are promised only when the scan does not re-intern the type's own key as a generic argument or a relation. A later `CreateGenericTypeArg` or `CreateTypeModel` with that key overwrites them, as the code does.
- NetTypeScanner.CreateMethods: the contents of the method nodes are promised only when the included methods' keys are distinct. Otherwise a later scan overwrites an earlier node with the same key.
- NetTypeScanner.CreateProperties: the contents of the property nodes are promised only when the included properties' keys are distinct.
- NetAssemblyScanner.CreateTypes: the contents of the type nodes are promised only when the types' keys are distinct.
- DotnetTypeScanner.ScanType: no contents are promised for the method nodes. They are keyed by name, so a same-named method scanned later overwrites them.
- DotnetMethodScanner.SignatureString: states a length bound and, in `SignatureStringsKeepNames`, that the name can be read back. The string is computed and then discarded by the code, so nothing else depends on it.
- ArchitectureAnalyzer.Net.Scanner/Model/ModelFactory.cs:76-87 calls `TypeKey.FromMethodTypeParameter`, which TypeKey.cs does not define. The model uses `FromMethodParameter` in its place.
- INSTANTIATES_GENERIC_TYPE and HAS_TYPE_ARGUMENT are not constants of ArchitectureAnalyzer.Net.Scanner/Relationship.cs. The model uses them as literal strings.
- Nothing in the modelled code sets `IsGenericTypeInstantiation`, `GenericType` or `GenericTypeInstantiationArgs`. They keep their defaults, and the GraphBuilder branch for instantiations is modelled for any value.
- `NetType.IsGeneric` as the never-assigned auto property of ArchitectureAnalyzer.Net.Model/NetType.cs:36. The model derives it from `GenericTypeArgs`, as the later `NetType` that TypeScanner.cs was written against evidently does. The observable difference is described in the introduction.
- `TypedReference` is keyed as the newer provider writes it, `FromType<TypeReference>()`, that is System.Reflection.Metadata.TypeReference. The older provider maps it to the short name "TypeReference".
- The `Where(t => t != null)` filters after interface and attribute lookups are the identity. Interning never yields null.
- The newer `ScanType` interleaves field writes of the node being scanned with interning calls on other maps. The model gathers those writes into one update after the calls. Those calls change this node only as `TypesEvolve` allows, so the final state is the same.
- Object identity of node instances, that is aliasing between the lists of different nodes: a node refers to other nodes by arena position or id.
- The test projects and TestLibrary serve as evidence only. Where they disagree with the code, the model follows the code. The one exception is `IsGeneric`, as noted above.

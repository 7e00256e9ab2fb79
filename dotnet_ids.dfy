/**
 * DotnetScanner/Utils/MetadataExtensions.cs and the identical helpers of
 * DotnetScanner/Scanner/AbstractScanner.cs: string ids of the older scanner.
 */
module DotnetIds {
  import opened Wrappers
  import opened Strings
  import opened Srm

  /** `GetString`: null for the nil handle, otherwise the heap string. */
  function GetString(reader: MetadataReader, h: StringHandle): (s: Option<string>)
    requires ValidString(reader, h)
    ensures s.None? <==> h.IsNil()
    ensures s.Some? ==> s.value == reader.strings[h.offset]
  {
    if h.IsNil() then None else Some(HeapString(reader, h))
  }

  /** `string.IsNullOrEmpty`. */
  predicate IsNullOrEmpty(s: Option<string>)
  {
    s.None? || s.value == ""
  }

  /** The `Where(s => !string.IsNullOrEmpty(s))` filter, order kept. */
  function Present(values: seq<Option<string>>): (r: seq<string>)
    ensures |r| <= |values|
    ensures forall i :: 0 <= i < |r| ==> r[i] != ""
    ensures forall s :: s in r <==> Some(s) in values && s != ""
  {
    if |values| == 0 then []
    else if IsNullOrEmpty(values[0]) then Present(values[1..])
    else [values[0].value] + Present(values[1..])
  }

  function HeapStrings(reader: MetadataReader, parts: seq<StringHandle>): (r: seq<Option<string>>)
    requires forall i :: 0 <= i < |parts| ==> ValidString(reader, parts[i])
    ensures |r| == |parts|
    ensures forall i :: 0 <= i < |parts| ==> r[i] == GetString(reader, parts[i])
  {
    seq(|parts|, i requires 0 <= i < |parts| && ValidString(reader, parts[i]) => GetString(reader, parts[i]))
  }

  /** `CreateId`: the non-empty parts joined with dots. */
  function CreateId(reader: MetadataReader, parts: seq<StringHandle>): string
    requires forall i :: 0 <= i < |parts| ==> ValidString(reader, parts[i])
  {
    Join(".", Present(HeapStrings(reader, parts)))
  }

  /** `GetTypeId(TypeDefinition)`: namespace and name. */
  function DefinitionId(reader: MetadataReader, d: TypeDefinition): string
    requires ValidString(reader, d.namespace) && ValidString(reader, d.name)
  {
    CreateId(reader, [d.namespace, d.name])
  }

  /** `GetTypeId(TypeReference)`: namespace and name. */
  function ReferenceId(reader: MetadataReader, r: TypeReference): string
    requires ValidString(reader, r.namespace) && ValidString(reader, r.name)
  {
    CreateId(reader, [r.namespace, r.name])
  }

  /** `GetTypeId(TypeDefinitionHandle)`: null for the nil handle. */
  function DefinitionHandleId(reader: MetadataReader, h: TypeDefinitionHandle): (id: Option<string>)
    requires WellFormed(reader) && ValidDefinition(reader, h)
    ensures id.None? <==> h.IsNil()
    ensures !h.IsNil() ==> id == Some(DefinitionId(reader, GetTypeDefinition(reader, h)))
  {
    if h.IsNil() then None
    else
      var d := GetTypeDefinition(reader, h);
      assert d in reader.typeDefinitions;
      Some(DefinitionId(reader, d))
  }

  /** `GetTypeId(TypeReferenceHandle)`: null for the nil handle. */
  function ReferenceHandleId(reader: MetadataReader, h: TypeReferenceHandle): (id: Option<string>)
    requires WellFormed(reader) && ValidReference(reader, h)
    ensures id.None? <==> h.IsNil()
    ensures !h.IsNil() ==> id == Some(ReferenceId(reader, GetTypeReference(reader, h)))
  {
    if h.IsNil() then None
    else
      var r := GetTypeReference(reader, h);
      assert r in reader.typeReferences;
      Some(ReferenceId(reader, r))
  }

  /** The id of a namespace and a name, by cases on which of the two is null or empty. */
  function QualifiedName(ns: Option<string>, name: Option<string>): string
  {
    if IsNullOrEmpty(ns) then Text(name)
    else if IsNullOrEmpty(name) then ns.value
    else ns.value + "." + name.value
  }

  /** A two-part id is the dotted name when both parts are present, and the present one otherwise. */
  lemma {:induction false} TwoPartId(reader: MetadataReader, ns: StringHandle, name: StringHandle)
    requires ValidString(reader, ns) && ValidString(reader, name)
    ensures CreateId(reader, [ns, name]) == QualifiedName(GetString(reader, ns), GetString(reader, name))
  {
    var a, b := GetString(reader, ns), GetString(reader, name);
    var values := HeapStrings(reader, [ns, name]);
    assert values == [a, b];
    assert values[1..] == [b];
    assert Present([b]) == if IsNullOrEmpty(b) then [] else [b.value] by {
      assert [b][1..] == [];
    }
    if !IsNullOrEmpty(a) && !IsNullOrEmpty(b) {
      var parts := [a.value, b.value];
      assert Present(values) == parts;
      assert parts[..1] == [a.value];
      assert Join(".", parts) == a.value + "." + b.value;
    }
  }

  /** A type of the global namespace gets its bare name, as the older scanner tests expect. */
  lemma GlobalNamespaceId(reader: MetadataReader, d: TypeDefinition)
    requires ValidString(reader, d.namespace) && ValidString(reader, d.name)
    requires d.namespace.IsNil() || reader.strings[d.namespace.offset] == ""
    ensures DefinitionId(reader, d) == Text(GetString(reader, d.name))
  {
    TwoPartId(reader, d.namespace, d.name);
  }

  /** A definition and a reference naming the same heap strings get the same id. */
  lemma DefinitionAndReferenceAgree(reader: MetadataReader, d: TypeDefinition, r: TypeReference)
    requires ValidString(reader, d.namespace) && ValidString(reader, d.name)
    requires r.namespace == d.namespace && r.name == d.name
    ensures DefinitionId(reader, d) == ReferenceId(reader, r)
  {
  }

  /** Ids are not injective: namespace "A.B" with name "C" and namespace "A" with name "B.C" share "A.B.C". */
  lemma DottedPartsCollide()
    ensures QualifiedName(Some("A.B"), Some("C")) == QualifiedName(Some("A"), Some("B.C"))
  {
  }
}

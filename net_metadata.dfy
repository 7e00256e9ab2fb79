/** Net.Scanner/Utils/MetadataExtensions.cs: type keys read from the metadata tables. */
module NetMetadata {
  import opened Wrappers
  import opened Srm
  import opened NetTypeKeys

  /** `GetString`: null for the nil handle, otherwise the heap string. */
  function GetString(reader: MetadataReader, h: StringHandle): (s: Option<string>)
    requires ValidString(reader, h)
    ensures s.None? <==> h.IsNil()
    ensures s.Some? ==> s.value == reader.strings[h.offset]
  {
    if h.IsNil() then None else Some(HeapString(reader, h))
  }

  /** `GetTypeKey(TypeDefinition)`. */
  function DefinitionKey(reader: MetadataReader, d: TypeDefinition): (k: TypeKey)
    requires ValidString(reader, d.namespace) && ValidString(reader, d.name)
    ensures k.namespace.None? <==> d.namespace.IsNil()
    ensures k.name.None? <==> d.name.IsNil()
    ensures k == Undefined <==> d.namespace.IsNil() && d.name.IsNil()
  {
    TypeKey(GetString(reader, d.namespace), GetString(reader, d.name))
  }

  /** `GetTypeKey(TypeReference)`. */
  function ReferenceKey(reader: MetadataReader, r: TypeReference): (k: TypeKey)
    requires ValidString(reader, r.namespace) && ValidString(reader, r.name)
    ensures k.namespace.None? <==> r.namespace.IsNil()
    ensures k.name.None? <==> r.name.IsNil()
    ensures k == Undefined <==> r.namespace.IsNil() && r.name.IsNil()
  {
    TypeKey(GetString(reader, r.namespace), GetString(reader, r.name))
  }

  /** `GetTypeKey(TypeDefinitionHandle)`: the nil handle gives `TypeKey.Undefined`. */
  function DefinitionHandleKey(reader: MetadataReader, h: TypeDefinitionHandle): (k: TypeKey)
    requires WellFormed(reader) && ValidDefinition(reader, h)
    ensures h.IsNil() ==> k == Undefined
    ensures !h.IsNil() ==> k == DefinitionKey(reader, GetTypeDefinition(reader, h))
  {
    if h.IsNil() then Undefined
    else
      var d := GetTypeDefinition(reader, h);
      assert d in reader.typeDefinitions;
      DefinitionKey(reader, d)
  }

  /** `GetTypeKey(TypeReferenceHandle)`: the nil handle gives `TypeKey.Undefined`. */
  function ReferenceHandleKey(reader: MetadataReader, h: TypeReferenceHandle): (k: TypeKey)
    requires WellFormed(reader) && ValidReference(reader, h)
    ensures h.IsNil() ==> k == Undefined
    ensures !h.IsNil() ==> k == ReferenceKey(reader, GetTypeReference(reader, h))
  {
    if h.IsNil() then Undefined
    else
      var r := GetTypeReference(reader, h);
      assert r in reader.typeReferences;
      ReferenceKey(reader, r)
  }

  /** A definition and a reference naming the same heap strings get the same key. */
  lemma DefinitionAndReferenceAgree(reader: MetadataReader, d: TypeDefinition, r: TypeReference)
    requires ValidString(reader, d.namespace) && ValidString(reader, d.name)
    requires r.namespace == d.namespace && r.name == d.name
    ensures DefinitionKey(reader, d) == ReferenceKey(reader, r)
  {
  }

  /** A row whose name is present never maps to `TypeKey.Undefined`, for every row but the nil one. */
  lemma NamedRowIsDefined(reader: MetadataReader, h: TypeDefinitionHandle)
    requires WellFormed(reader) && ValidDefinition(reader, h) && !h.IsNil()
    requires !GetTypeDefinition(reader, h).name.IsNil()
    ensures DefinitionHandleKey(reader, h) != Undefined
    ensures DefinitionHandleKey(reader, h).name == Some(reader.strings[GetTypeDefinition(reader, h).name.offset])
  {
  }
}

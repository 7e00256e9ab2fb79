/** `VisibilityExtensions.ToVisibility`: attribute bits to the model's visibility. */
module NetVisibility {
  import opened Wrappers
  import opened NetModel
  import opened Flags
  import TA = TypeAttributes
  import MA = MethodAttributes

  /** `ToVisibility(TypeAttributes)`: a switch on the 3-bit visibility field. */
  function TypeVisibility(attributes: bv32): (r: Result<Visibility>)
    ensures var v := attributes & TA.VisibilityMask;
      && (r == Ok(Public) <==> v == TA.Public || v == TA.NestedPublic)
      && (r == Ok(Internal) <==> v == TA.NotPublic || v == TA.NestedAssembly)
      && (r == Ok(Protected) <==> v == TA.NestedFamily)
      && (r == Ok(Private) <==> v == TA.NestedPrivate)
      && (r.Err? <==> v == TA.NestedFamANDAssem || v == TA.NestedFamORAssem)
    ensures r.Err? ==> r.error == ArgumentOutOfRange
  {
    var v := attributes & TA.VisibilityMask;
    if v == TA.Public || v == TA.NestedPublic then Ok(Public)
    else if v == TA.NotPublic then Ok(Internal)
    else if v == TA.NestedAssembly then Ok(Internal)
    else if v == TA.NestedFamily then Ok(Protected)
    else if v == TA.NestedPrivate then Ok(Private)
    else Err(ArgumentOutOfRange)
  }

  /**
   * `ToVisibility(MethodAttributes)`: `HasFlag` tests of the access values in
   * the order Public, Assembly, Family, Private. The access values overlap as
   * bit patterns, so the cascade is not a switch on the access field.
   */
  function MethodVisibility(attributes: bv32): (r: Result<Visibility>)
    ensures var a := attributes & MA.MemberAccessMask;
      && (r == Ok(Public) <==> a == MA.Public || a == 7)
      && (r == Ok(Internal) <==> a == MA.Assembly)
      && (r == Ok(Protected) <==> a == MA.Family || a == MA.FamORAssem)
      && (r == Ok(Private) <==> a == MA.Private)
      && (r.Err? <==> a == MA.CompilerControlled || a == MA.FamANDAssem)
    ensures r.Err? ==> r.error == ArgumentOutOfRange
  {
    if HasFlag(attributes, MA.Public) then Ok(Public)
    else if HasFlag(attributes, MA.Assembly) then Ok(Internal)
    else if HasFlag(attributes, MA.Family) then Ok(Protected)
    else if HasFlag(attributes, MA.Private) then Ok(Private)
    else Err(ArgumentOutOfRange)
  }

  /** Only the access bits decide a visibility: flags such as Static or Abstract do not change it. */
  lemma OnlyAccessBitsMatter(a: bv32, b: bv32)
    requires a & 7 == b & 7
    ensures TypeVisibility(a) == TypeVisibility(b)
    ensures MethodVisibility(a) == MethodVisibility(b)
  {
  }
}

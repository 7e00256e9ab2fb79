/** Net.Scanner/ScannerConstants.cs: method names a type scan keeps although they carry SpecialName. */
module ScannerConstants {
  import opened Strings

  /**
   * `MethodSpecialNames`: the instance constructor and the operator methods of
   * ECMA-335 Partition I, section 10.3, written as a membership test.
   */
  predicate IsMethodSpecialName(name: string)
  {
    name in {
      ".ctor",
      "op_Implicit",
      "op_Explicit",
      "op_Addition",
      "op_Subtraction",
      "op_Multiply",
      "op_Division",
      "op_Modulus",
      "op_ExclusiveOr",
      "op_BitwiseAnd",
      "op_BitwiseOr",
      "op_LogicalAnd",
      "op_LogicalOr",
      "op_Assign",
      "op_LeftShift",
      "op_RightShift",
      "op_SignedRightShift",
      "op_UnsignedRightShift",
      "op_Equality",
      "op_GreaterThan",
      "op_LessThan",
      "op_Inequality",
      "op_GreaterThanOrEqual",
      "op_LessThanOrEqual",
      "op_MultiplicationAssignment",
      "op_SubtractionAssignment",
      "op_ExclusiveOrAssignment",
      "op_LeftShiftAssignment",
      "op_ModulusAssignment",
      "op_AdditionAssignment",
      "op_BitwiseAndAssignment",
      "op_BitwiseOrAssignment",
      "op_Comma",
      "op_DivisionAssignment",
      "op_Decrement",
      "op_Increment",
      "op_UnaryNegation",
      "op_UnaryPlus",
      "op_OnesComplement"
    }
  }

  /** Every listed name is the instance constructor or an operator method. */
  lemma SpecialNamesAreConstructorsOrOperators(name: string)
    requires IsMethodSpecialName(name)
    ensures name == ".ctor" || StartsWith(name, "op_")
  {
  }

  /** Every listed name starts with the dot of `.ctor` or the `o` of `op_`. */
  lemma ListedNamesStart(name: string)
    ensures IsMethodSpecialName(name) ==> |name| > 0 && (name[0] == '.' || name[0] == 'o')
  {
  }

  /** Property and event accessors are never listed, so a SpecialName accessor is dropped by the type scan. */
  lemma AccessorsAreNotListed(name: string)
    requires StartsWith(name, "get_") || StartsWith(name, "set_") || StartsWith(name, "add_") || StartsWith(name, "remove_")
    ensures !IsMethodSpecialName(name)
  {
    assert name[0] in "gsar";
    ListedNamesStart(name);
  }

  /** The instance constructor and the equality operators are listed. */
  lemma ConstructorAndEqualityAreListed()
    ensures IsMethodSpecialName(".ctor")
    ensures IsMethodSpecialName("op_Equality") && IsMethodSpecialName("op_Inequality")
  {
  }

  /** The static constructor and the true/false operators are not listed. */
  lemma UnlistedSpecialNames()
    ensures !IsMethodSpecialName(".cctor")
    ensures !IsMethodSpecialName("op_True") && !IsMethodSpecialName("op_False")
  {
  }
}

/** The dictionary keys of the newer scanner's model factory (Net.Scanner/Model). */
module NetTypeKeys {
  import opened Wrappers
  import opened Strings

  /** A type's identity: namespace and name, either of which may be null. */
  datatype TypeKey = TypeKey(namespace: Option<string>, name: Option<string>)

  /** `TypeKey.Undefined`, the default struct value. */
  const Undefined: TypeKey := TypeKey(None, None)

  /** The parts of a runtime `System.Type` that `FromType` reads; `name` keeps any backtick suffix. */
  datatype RuntimeType = RuntimeType(namespace: Option<string>, name: string)

  datatype MethodKey = MethodKey(declaringType: TypeKey, name: string)
  datatype PropertyKey = PropertyKey(declaringType: TypeKey, name: string)
  datatype MethodParameterKey = MethodParameterKey(methodId: int, name: string)
  datatype AssemblyKey = AssemblyKey(name: string)

  /** `TypeKey.FromType`: the runtime type's namespace and short name, unchanged. */
  function FromType(t: RuntimeType): (k: TypeKey)
    ensures k.namespace == t.namespace && k.name == Some(t.name)
    ensures k != Undefined
  {
    TypeKey(t.namespace, Some(t.name))
  }

  /** `TypeKey.FromTypeArgument`: the type argument `a` of `owner`. */
  function FromTypeArgument(owner: TypeKey, a: string): TypeKey
  {
    TypeKey(owner.namespace, Some(Text(owner.name) + "<" + a + ">"))
  }

  /** `TypeKey.FromMethodParameter`: the generic parameter `a` of method `m`. */
  function FromMethodParameter(m: MethodKey, a: string): TypeKey
  {
    TypeKey(m.declaringType.namespace, Some(Text(m.declaringType.name) + "/" + m.name + "<" + a + ">"))
  }

  /** Recovers the argument name from a key built with `prefix + "<" + a + ">"`. */
  function ArgumentOf(prefix: string, name: Option<string>): (a: Option<string>)
    ensures a.Some? ==> name == Some(prefix + "<" + a.value + ">")
  {
    if name.Some? && |name.value| >= |prefix| + 2 && name.value[..|prefix| + 1] == prefix + "<"
       && name.value[|name.value| - 1] == '>'
    then
      var a := name.value[|prefix| + 1..|name.value| - 1];
      assert name.value == name.value[..|prefix| + 1] + a + [name.value[|name.value| - 1]];
      Some(a)
    else None
  }

  /** The argument name of a type-argument key of `owner`, if `k` is one. */
  function TypeArgumentOf(owner: TypeKey, k: TypeKey): (a: Option<string>)
    ensures a.Some? ==> k == FromTypeArgument(owner, a.value)
  {
    if k.namespace == owner.namespace then ArgumentOf(Text(owner.name), k.name) else None
  }

  /** The argument name of a method generic-parameter key of `m`, if `k` is one. */
  function MethodParameterOf(m: MethodKey, k: TypeKey): (a: Option<string>)
    ensures a.Some? ==> k == FromMethodParameter(m, a.value)
  {
    if k.namespace == m.declaringType.namespace
    then ArgumentOf(Text(m.declaringType.name) + "/" + m.name, k.name)
    else None
  }

  lemma ArgumentOfWrapped(prefix: string, a: string)
    ensures ArgumentOf(prefix, Some(prefix + "<" + a + ">")) == Some(a)
  {
    var s := prefix + "<" + a + ">";
    assert s[..|prefix| + 1] == prefix + "<";
    assert s[|prefix| + 1..|s| - 1] == a;
  }

  /** The argument name can be read back from a type-argument key. */
  lemma TypeArgumentRoundTrip(owner: TypeKey, a: string)
    ensures TypeArgumentOf(owner, FromTypeArgument(owner, a)) == Some(a)
  {
    ArgumentOfWrapped(Text(owner.name), a);
  }

  /** The argument name can be read back from a method generic-parameter key. */
  lemma MethodParameterRoundTrip(m: MethodKey, a: string)
    ensures MethodParameterOf(m, FromMethodParameter(m, a)) == Some(a)
  {
    ArgumentOfWrapped(Text(m.declaringType.name) + "/" + m.name, a);
  }

  /** For a fixed owner, distinct argument names give distinct keys. */
  lemma FromTypeArgumentInjective(owner: TypeKey, a: string, b: string)
    requires FromTypeArgument(owner, a) == FromTypeArgument(owner, b)
    ensures a == b
  {
    TypeArgumentRoundTrip(owner, a);
    TypeArgumentRoundTrip(owner, b);
  }

  /** For a fixed method, distinct argument names give distinct keys. */
  lemma FromMethodParameterInjective(m: MethodKey, a: string, b: string)
    requires FromMethodParameter(m, a) == FromMethodParameter(m, b)
    ensures a == b
  {
    MethodParameterRoundTrip(m, a);
    MethodParameterRoundTrip(m, b);
  }
}

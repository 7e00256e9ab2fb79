/** DotnetScanner/Model/TypeKeyExtensions.cs: derived keys, used by the newer signature provider. */
module TypeKeyExtensions {
  import opened Wrappers
  import opened Strings
  import opened NetTypeKeys
  import opened NetModel

  /** `GetKey(this NetType)`: the node's current namespace and name. */
  function GetKey(t: NetType): (k: TypeKey)
    ensures k.namespace == t.namespace && k.name == t.name
  {
    TypeKey(t.namespace, t.name)
  }

  function WithSuffix(k: TypeKey, suffix: string): TypeKey
  {
    TypeKey(k.namespace, Some(Text(k.name) + suffix))
  }

  function ToArrayType(k: TypeKey): TypeKey { WithSuffix(k, "[]") }

  function ToPointerType(k: TypeKey): TypeKey { WithSuffix(k, "*") }

  function ToReferenceType(k: TypeKey): TypeKey { WithSuffix(k, "&") }

  function ToPinnedType(k: TypeKey): TypeKey { WithSuffix(k, " pinned") }

  /** `ToModifiedType`: the modifier's "namespace.name", a space, then the unmodified name. */
  function ToModifiedType(k: TypeKey, modifier: TypeKey): TypeKey
  {
    TypeKey(k.namespace, Some(Text(modifier.namespace) + "." + Text(modifier.name) + " " + Text(k.name)))
  }

  /** How `ToGenericType` renders one type argument. */
  function ArgumentText(a: TypeKey): string
  {
    Text(a.namespace) + "." + Text(a.name)
  }

  function ArgumentTexts(args: seq<TypeKey>): (ts: seq<string>)
    ensures |ts| == |args|
    ensures forall i :: 0 <= i < |args| ==> ts[i] == ArgumentText(args[i])
  {
    seq(|args|, i requires 0 <= i < |args| => ArgumentText(args[i]))
  }

  /** `ToGenericType`: G's name, then the comma-joined arguments in angle brackets. */
  function ToGenericType(k: TypeKey, args: seq<TypeKey>): TypeKey
  {
    TypeKey(k.namespace, Some(Text(k.name) + "<" + Join(",", ArgumentTexts(args)) + ">"))
  }

  lemma SuffixCancels(x: string, y: string, suffix: string)
    requires x + suffix == y + suffix
    ensures x == y
  {
    assert |x| == |y|;
    assert x == (x + suffix)[..|x|];
    assert y == (y + suffix)[..|y|];
  }

  /** Each suffix operation keeps the namespace and is injective on keys with a non-null name. */
  lemma SuffixOperationsInjective(a: TypeKey, b: TypeKey)
    requires a.name.Some? && b.name.Some?
    ensures ToArrayType(a) == ToArrayType(b) ==> a == b
    ensures ToPointerType(a) == ToPointerType(b) ==> a == b
    ensures ToReferenceType(a) == ToReferenceType(b) ==> a == b
    ensures ToPinnedType(a) == ToPinnedType(b) ==> a == b
  {
    forall suffix: string | WithSuffix(a, suffix) == WithSuffix(b, suffix)
      ensures a == b
    {
      SuffixCancels(a.name.value, b.name.value, suffix);
    }
  }

  /** A null name and an empty name render alike, so the suffix operations do not separate them. */
  lemma NullAndEmptyNamesCollide(ns: Option<string>)
    ensures ToArrayType(TypeKey(ns, None)) == ToArrayType(TypeKey(ns, Some("")))
    ensures TypeKey(ns, None) != TypeKey(ns, Some(""))
  {
  }

  /** The four suffix operations never produce the same key, whatever their inputs. */
  lemma SuffixOperationsDisjoint(a: TypeKey, b: TypeKey)
    ensures ToArrayType(a) != ToPointerType(b) && ToArrayType(a) != ToReferenceType(b)
    ensures ToArrayType(a) != ToPinnedType(b) && ToPointerType(a) != ToReferenceType(b)
    ensures ToPointerType(a) != ToPinnedType(b) && ToReferenceType(a) != ToPinnedType(b)
  {
    var x, y := Text(a.name), Text(b.name);
    assert (x + "[]")[|x + "[]"| - 1] == ']';
    assert (y + "*")[|y + "*"| - 1] == '*';
    assert (y + "&")[|y + "&"| - 1] == '&';
    assert (y + " pinned")[|y + " pinned"| - 1] == 'd';
    assert (x + "*")[|x + "*"| - 1] == '*';
    assert (x + "&")[|x + "&"| - 1] == '&';
  }

  /** An empty argument list gives "G<>". */
  lemma GenericWithoutArguments(k: TypeKey)
    ensures ToGenericType(k, []) == TypeKey(k.namespace, Some(Text(k.name) + "<>"))
  {
    assert ArgumentTexts([]) == [];
    assert Text(k.name) + "<" + "" + ">" == Text(k.name) + "<>";
  }

  /** An argument with an empty namespace keeps its leading dot: G<.!0>. */
  lemma GenericArgumentWithEmptyNamespace(k: TypeKey)
    ensures ToGenericType(k, [TypeKey(Some(""), Some("!0"))]) == TypeKey(k.namespace, Some(Text(k.name) + "<.!0>"))
  {
    var a := TypeKey(Some(""), Some("!0"));
    var ts := ArgumentTexts([a]);
    assert ts[0] == ArgumentText([a][0]);
    assert ArgumentText(a) == ".!0";
    assert ts == [".!0"];
    assert Text(k.name) + "<" + ".!0" + ">" == Text(k.name) + "<.!0>";
  }

  /** Arguments are rendered in order: with two arguments the name is G<a1,a2>. */
  lemma GenericArgumentsInOrder(k: TypeKey, a1: TypeKey, a2: TypeKey)
    ensures ToGenericType(k, [a1, a2]).name == Some(Text(k.name) + "<" + ArgumentText(a1) + "," + ArgumentText(a2) + ">")
  {
    var ts := ArgumentTexts([a1, a2]);
    assert ts[..1] == [ArgumentText(a1)];
    assert Join(",", ts[..1]) == ArgumentText(a1);
    assert Join(",", ts) == ArgumentText(a1) + "," + ArgumentText(a2);
    var n, t1, t2 := Text(k.name), ArgumentText(a1), ArgumentText(a2);
    assert n + "<" + (t1 + "," + t2) + ">" == n + "<" + t1 + "," + t2 + ">";
  }

  /** When no argument rendering contains a comma, the argument list has exactly |args|-1 commas. */
  lemma GenericArgumentCommas(args: seq<TypeKey>)
    requires |args| >= 1
    requires forall i :: 0 <= i < |args| ==> ',' !in ArgumentText(args[i])
    ensures Count(Join(",", ArgumentTexts(args)), ',') == |args| - 1
  {
    CountJoin(',', ArgumentTexts(args));
  }
}

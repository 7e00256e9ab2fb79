/**
 * The rendering of a general array's shape that both signature providers
 * (`GetArrayType`) build with a StringBuilder: "[lo...hi,lo...hi]".
 */
module ArrayShapes {
  import opened Strings
  import opened Srm

  /** The lower bound used for dimension `i`: the declared one, or 0 when none is declared. */
  function LowerBound(shape: ArrayShape, i: nat): int
  {
    if i < |shape.lowerBounds| then shape.lowerBounds[i] else 0
  }

  /** The declared lower bound of dimension `i`, or nothing when none is declared. */
  function LowerText(shape: ArrayShape, i: nat): string
  {
    if i < |shape.lowerBounds| then IntToString(shape.lowerBounds[i]) else ""
  }

  /** The upper bound `lo + size - 1` of dimension `i`, or nothing when no size is declared. */
  function UpperText(shape: ArrayShape, i: nat): string
  {
    if i < |shape.sizes| then IntToString(LowerBound(shape, i) + shape.sizes[i] - 1) else ""
  }

  /** One dimension: lower bound, "...", upper bound. */
  function Dimension(shape: ArrayShape, i: nat): string
  {
    LowerText(shape, i) + "..." + UpperText(shape, i)
  }

  /** The first `n` dimensions. */
  function Dimensions(shape: ArrayShape, n: nat): (ds: seq<string>)
    ensures |ds| == n
    ensures forall i :: 0 <= i < n ==> ds[i] == Dimension(shape, i)
  {
    seq(n, i requires 0 <= i => Dimension(shape, i))
  }

  /** The suffix appended to the element name: every dimension, comma-separated, in brackets. */
  function ShapeSuffix(shape: ArrayShape): string
  {
    "[" + Join(",", Dimensions(shape, shape.rank)) + "]"
  }

  lemma JoinSnoc(parts: seq<string>, x: string)
    ensures Join(",", parts + [x]) == if |parts| == 0 then x else Join(",", parts) + "," + x
  {
    assert (parts + [x])[..|parts|] == parts;
  }

  lemma DimensionsSnoc(shape: ArrayShape, i: nat)
    ensures Dimensions(shape, i + 1) == Dimensions(shape, i) + [Dimension(shape, i)]
  {
  }

  lemma ConcatStep(prefix: string, j: string, d: string, sep: string)
    ensures prefix + "[" + j + "," + d + sep == prefix + "[" + (j + "," + d) + sep
  {
  }

  /** One dimension of the StringBuilder loop: the lower bound if declared, "...", the upper bound if a size is declared. */
  method AppendDimension(builder: string, shape: ArrayShape, i: nat) returns (next: string)
    ensures next == builder + Dimension(shape, i)
  {
    next := builder;
    var lowerBound := 0;
    if i < |shape.lowerBounds| {
      lowerBound := shape.lowerBounds[i];
      next := next + IntToString(lowerBound);
    }
    assert next == builder + LowerText(shape, i);
    next := next + "...";
    ghost var afterDots := next;
    if i < |shape.sizes| {
      next := next + IntToString(lowerBound + shape.sizes[i] - 1);
    }
    assert next == afterDots + UpperText(shape, i);
    DimensionAppended(builder, LowerText(shape, i), UpperText(shape, i));
  }

  /**
   * The StringBuilder loop of `GetArrayType`: `prefix` is what was appended
   * before the opening bracket (the element's name or id).
   */
  method AppendShape(prefix: string, shape: ArrayShape) returns (s: string)
    ensures s == prefix + ShapeSuffix(shape)
  {
    var builder := prefix + "[";
    ghost var done: seq<string> := [];
    for i := 0 to shape.rank
      invariant done == Dimensions(shape, i)
      invariant builder == prefix + "[" + Join(",", done) + (if 0 < i < shape.rank then "," else "")
    {
      ghost var before := builder;
      builder := AppendDimension(builder, shape, i);
      ghost var d := Dimension(shape, i);
      if i < shape.rank - 1 {
        builder := builder + ",";
      }
      assert builder == prefix + "[" + Join(",", done + [d]) + (if i + 1 < shape.rank then "," else "") by {
        JoinSnoc(done, d);
        if i > 0 {
          ConcatStep(prefix, Join(",", done), d, if i + 1 < shape.rank then "," else "");
        }
      }
      DimensionsSnoc(shape, i);
      done := done + [d];
    }
    s := builder + "]";
    assert s == prefix + ShapeSuffix(shape) by {
      Closed(prefix, Join(",", done));
    }
  }

  lemma Closed(prefix: string, j: string)
    ensures prefix + "[" + j + "" + "]" == prefix + ("[" + j + "]")
  {
  }

  lemma DimensionAppended(before: string, lo: string, hi: string)
    ensures before + lo + "..." + hi == before + (lo + "..." + hi)
  {
  }

  lemma NoCommaConcat(a: string, b: string)
    requires ',' !in a && ',' !in b
    ensures ',' !in a + b
  {
  }

  lemma IntToStringHasNoComma(v: int)
    ensures ',' !in IntToString(v)
  {
    var s := IntToString(v);
    if v < 0 {
      assert s == [s[0]] + s[1..];
      assert ',' !in s[1..];
    } else {
      assert forall k :: 0 <= k < |s| ==> s[k] != ',';
    }
  }

  lemma DimensionHasNoComma(shape: ArrayShape, i: nat)
    ensures ',' !in Dimension(shape, i)
  {
    if i < |shape.lowerBounds| {
      IntToStringHasNoComma(shape.lowerBounds[i]);
    }
    if i < |shape.sizes| {
      IntToStringHasNoComma(LowerBound(shape, i) + shape.sizes[i] - 1);
    }
    NoCommaConcat(LowerText(shape, i), "...");
    NoCommaConcat(LowerText(shape, i) + "...", UpperText(shape, i));
  }

  /** A shape of rank n >= 1 has exactly n - 1 commas. */
  lemma ShapeCommas(shape: ArrayShape)
    requires shape.rank >= 1
    ensures Count(ShapeSuffix(shape), ',') == shape.rank - 1
  {
    var ds := Dimensions(shape, shape.rank);
    forall i | 0 <= i < |ds|
      ensures ',' !in ds[i]
    {
      DimensionHasNoComma(shape, i);
    }
    CountJoin(',', ds);
    var body := Join(",", ds);
    CountConcat("[", body, ',');
    CountConcat("[" + body, "]", ',');
  }

  /** A general array of rank at least one never renders like a single-dimension array's "[]". */
  lemma GeneralArrayIsNotVector(shape: ArrayShape)
    requires shape.rank >= 1
    ensures ShapeSuffix(shape) != "[]"
  {
    var ds := Dimensions(shape, shape.rank);
    JoinIsAtLeastLast(ds);
    assert |Dimension(shape, shape.rank - 1)| >= 3;
  }

  lemma {:induction false} JoinIsAtLeastLast(parts: seq<string>)
    requires |parts| >= 1
    ensures |Join(",", parts)| >= |parts[|parts| - 1]|
  {
  }

  /** A rank-0 shape renders as "[]". */
  lemma RankZero(shape: ArrayShape)
    requires shape.rank == 0
    ensures ShapeSuffix(shape) == "[]"
  {
    assert Dimensions(shape, 0) == [];
  }

  /** Two dimensions without bounds: "[...,...]". */
  lemma TwoUnboundedDimensions()
    ensures ShapeSuffix(ArrayShape(2, [], [])) == "[...,...]"
  {
    var shape := ArrayShape(2, [], []);
    var ds := Dimensions(shape, 2);
    assert ds[0] == "..." && ds[1] == "...";
    assert ds[..1] == ["..."];
    assert Join(",", ds) == "..." + "," + "...";
  }

  /** Lower bound 1 and size 3 give "[1...3]": the upper bound is `lo + size - 1`. */
  lemma BoundedDimension()
    ensures ShapeSuffix(ArrayShape(1, [3], [1])) == "[1...3]"
  {
    var shape := ArrayShape(1, [3], [1]);
    assert LowerText(shape, 0) == "1";
    assert UpperText(shape, 0) == "3";
    assert Dimension(shape, 0) == "1...3";
    assert Dimensions(shape, 1) == [Dimension(shape, 0)];
  }

  /** A size without a declared lower bound counts from 0 and prints only the upper bound: size 5 gives "[...4]". */
  lemma SizeWithoutLowerBound()
    ensures ShapeSuffix(ArrayShape(1, [5], [])) == "[...4]"
  {
    var shape := ArrayShape(1, [5], []);
    assert LowerText(shape, 0) == "";
    assert UpperText(shape, 0) == "4";
    assert Dimension(shape, 0) == "...4";
    assert Dimensions(shape, 1) == [Dimension(shape, 0)];
  }
}

/** The LINQ operators the scanners and the graph builder depend on: `Where`, `SelectMany` and `Except`. */
module Linq {
  /** `Where(p)`: the elements satisfying `p`, in their order. */
  function Where<T>(xs: seq<T>, p: T -> bool): (r: seq<T>)
    ensures |r| <= |xs|
    decreases |xs|
  {
    if |xs| == 0 then []
    else
      var init, last := xs[..|xs| - 1], xs[|xs| - 1];
      Where(init, p) + (if p(last) then [last] else [])
  }

  /** An element is kept exactly when it is in the input and satisfies the predicate. */
  lemma {:induction false} WhereMembership<T>(xs: seq<T>, p: T -> bool, x: T)
    ensures x in Where(xs, p) <==> x in xs && p(x)
    decreases |xs|
  {
    if |xs| > 0 {
      var init, last := xs[..|xs| - 1], xs[|xs| - 1];
      WhereMembership(init, p, x);
      assert xs == init + [last];
    }
  }

  /** A filtering loop's step: one more element looked at. */
  lemma WhereStep<T>(xs: seq<T>, p: T -> bool, j: nat)
    requires j < |xs|
    ensures Where(xs[..j + 1], p) == Where(xs[..j], p) + (if p(xs[j]) then [xs[j]] else [])
  {
    assert xs[..j + 1][..j] == xs[..j];
  }

  /** Filtering by a predicate every element satisfies changes nothing. */
  lemma {:induction false} WhereAll<T(!new)>(xs: seq<T>, p: T -> bool)
    requires forall x :: x in xs ==> p(x)
    ensures Where(xs, p) == xs
    decreases |xs|
  {
    if |xs| > 0 {
      var init := xs[..|xs| - 1];
      WhereAll(init, p);
      assert xs == init + [xs[|xs| - 1]];
    }
  }

  /** `SelectMany(f)`: the sequences `f` gives for the elements, concatenated in order. */
  function SelectMany<T, U>(xs: seq<T>, f: T -> seq<U>): (r: seq<U>)
    decreases |xs|
  {
    if |xs| == 0 then []
    else SelectMany(xs[..|xs| - 1], f) + f(xs[|xs| - 1])
  }

  /** A loop over `xs` that emits `f(xs[j])` at step `j` has emitted `SelectMany(xs[..j], f)`. */
  lemma SelectManyStep<T, U>(xs: seq<T>, f: T -> seq<U>, j: nat)
    requires j < |xs|
    ensures SelectMany(xs[..j + 1], f) == SelectMany(xs[..j], f) + f(xs[j])
  {
    assert xs[..j + 1][..j] == xs[..j];
  }

  lemma SelectManyAll<T, U>(xs: seq<T>, f: T -> seq<U>)
    ensures SelectMany(xs[..|xs|], f) == SelectMany(xs, f)
  {
    assert xs[..|xs|] == xs;
  }

  /** An element of the result comes from the sequence of some input element, and every such element is there. */
  lemma {:induction false} SelectManyMembership<T, U>(xs: seq<T>, f: T -> seq<U>, y: U)
    ensures y in SelectMany(xs, f) <==> exists i :: 0 <= i < |xs| && y in f(xs[i])
    decreases |xs|
  {
    if |xs| > 0 {
      var init := xs[..|xs| - 1];
      SelectManyMembership(init, f, y);
      if y in SelectMany(init, f) {
        var i :| 0 <= i < |init| && y in f(init[i]);
        assert xs[i] == init[i];
      }
      forall i | 0 <= i < |init| && y in f(xs[i])
        ensures y in SelectMany(init, f)
      {
        assert xs[i] == init[i];
      }
    }
  }

  /** One output per input: the result is as long as `xs` and its `i`-th element is the one `f` gives for `xs[i]`. */
  lemma {:induction false} SelectManyOnes<T, U>(xs: seq<T>, f: T -> seq<U>)
    requires forall x :: x in xs ==> |f(x)| == 1
    ensures |SelectMany(xs, f)| == |xs|
    ensures forall i :: 0 <= i < |xs| ==> SelectMany(xs, f)[i] == f(xs[i])[0]
    decreases |xs|
  {
    if |xs| > 0 {
      var init := xs[..|xs| - 1];
      assert forall x :: x in init ==> x in xs;
      SelectManyOnes(init, f);
      assert forall i :: 0 <= i < |init| ==> xs[i] == init[i];
    }
  }

  /** Two outputs per input: the pair `f` gives for `xs[i]` sits at positions 2i and 2i + 1. */
  lemma {:induction false} SelectManyPairs<T, U>(xs: seq<T>, f: T -> seq<U>)
    requires forall x :: x in xs ==> |f(x)| == 2
    ensures |SelectMany(xs, f)| == 2 * |xs|
    ensures forall i :: 0 <= i < |xs| ==> SelectMany(xs, f)[2 * i] == f(xs[i])[0] && SelectMany(xs, f)[2 * i + 1] == f(xs[i])[1]
    decreases |xs|
  {
    if |xs| > 0 {
      var init := xs[..|xs| - 1];
      assert forall x :: x in init ==> x in xs;
      SelectManyPairs(init, f);
      assert forall i :: 0 <= i < |init| ==> xs[i] == init[i];
    }
  }

  /** A property of every produced element holds of the whole result. */
  lemma SelectManyEvery<T, U>(xs: seq<T>, f: T -> seq<U>, p: U -> bool)
    requires forall x, y :: x in xs && y in f(x) ==> p(y)
    ensures forall y :: y in SelectMany(xs, f) ==> p(y)
  {
    forall y | y in SelectMany(xs, f)
      ensures p(y)
    {
      SelectManyMembership(xs, f, y);
    }
  }

  /**
   * `Except` continued from a set of values already produced or excluded:
   * each element of `xs` is kept on first sight unless it is in `seen`.
   */
  function ExceptFrom<T(==)>(xs: seq<T>, seen: set<T>): (r: seq<T>)
  {
    if |xs| == 0 then []
    else if xs[0] in seen then ExceptFrom(xs[1..], seen)
    else [xs[0]] + ExceptFrom(xs[1..], seen + {xs[0]})
  }

  /** `first.Except(second)`: the distinct elements of `first` not in `second`, in first-occurrence order. */
  function Except<T(==)>(first: seq<T>, second: seq<T>): seq<T>
  {
    ExceptFrom(first, set x | x in second)
  }

  lemma {:induction false} ExceptFromMembership<T>(xs: seq<T>, seen: set<T>, x: T)
    ensures x in ExceptFrom(xs, seen) <==> x in xs && x !in seen
  {
    if |xs| > 0 {
      ExceptFromMembership(xs[1..], seen, x);
      ExceptFromMembership(xs[1..], seen + {xs[0]}, x);
      assert x in xs <==> x == xs[0] || x in xs[1..];
    }
  }

  lemma {:induction false} ExceptFromDistinct<T>(xs: seq<T>, seen: set<T>)
    ensures forall i, j :: 0 <= i < j < |ExceptFrom(xs, seen)| ==> ExceptFrom(xs, seen)[i] != ExceptFrom(xs, seen)[j]
    ensures forall x :: x in ExceptFrom(xs, seen) ==> x !in seen
  {
    if |xs| > 0 {
      ExceptFromDistinct(xs[1..], seen);
      ExceptFromDistinct(xs[1..], seen + {xs[0]});
      if xs[0] !in seen {
        var rest := ExceptFrom(xs[1..], seen + {xs[0]});
        assert xs[0] !in rest;
        var r := [xs[0]] + rest;
        forall i, j | 0 <= i < j < |r|
          ensures r[i] != r[j]
        {
          if i == 0 {
            assert r[j] == rest[j - 1];
          } else {
            assert r[i] == rest[i - 1] && r[j] == rest[j - 1];
          }
        }
      }
    }
  }

  /** Membership in `Except`, both directions. */
  lemma ExceptMembership<T>(first: seq<T>, second: seq<T>, x: T)
    ensures x in Except(first, second) <==> x in first && x !in second
  {
    ExceptFromMembership(first, (set y | y in second), x);
  }

  /** `Except` yields every value at most once, even when `first` repeats it. */
  lemma ExceptDistinct<T>(first: seq<T>, second: seq<T>)
    ensures forall i, j :: 0 <= i < j < |Except(first, second)| ==> Except(first, second)[i] != Except(first, second)[j]
  {
    ExceptFromDistinct(first, set y | y in second);
  }

  /** Excluding nothing removes only repetitions: [a, b, a].Except([]) is [a, b]. */
  lemma ExceptRemovesRepetitions<T>(a: T, b: T)
    requires a != b
    ensures Except([a, b, a], []) == [a, b]
  {
    var none: set<T> := set y | y in [];
    assert none == {};
    assert [a, b, a][1..] == [b, a];
    assert [b, a][1..] == [a];
    assert [a][1..] == [];
    assert ExceptFrom([a], {a, b}) == [];
    assert ExceptFrom([b, a], {a}) == [b] + ExceptFrom([a], {a} + {b});
    assert {a} + {b} == {a, b};
    assert none + {a} == {a};
    assert ExceptFrom([a, b, a], none) == [a] + ExceptFrom([b, a], {a});
    assert Except([a, b, a], []) == ExceptFrom([a, b, a], none);
  }
}

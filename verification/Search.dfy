/** Early-return search over a slice, as the selection functions on both sides write it, and append loops. */
module Search {
  import opened Wrappers

  function FirstWhere<T>(xs: seq<T>, p: T -> bool): (r: Option<T>)
    ensures r.None? ==> forall k :: 0 <= k < |xs| ==> !p(xs[k])
    ensures r.Some? ==> p(r.value) && IsFirst(xs, p, r.value)
  {
    if xs == [] then None
    else if p(xs[0]) then Some(xs[0])
    else
      var r := FirstWhere(xs[1..], p);
      assert r.Some? ==> IsFirst(xs, p, r.value) by {
        if r.Some? {
          var k :| 0 <= k < |xs[1..]| && xs[1..][k] == r.value && forall j :: 0 <= j < k ==> !p(xs[1..][j]);
          assert xs[k + 1] == r.value;
          assert forall j :: 0 < j < k + 1 ==> xs[j] == xs[1..][j - 1];
        }
      }
      r
  }

  ghost predicate IsFirst<T>(xs: seq<T>, p: T -> bool, x: T) {
    exists k :: 0 <= k < |xs| && xs[k] == x && forall j :: 0 <= j < k ==> !p(xs[j])
  }

  /** Two searches agree when the second test only narrows the first and the first hit passes it. */
  lemma SameFirst<T>(xs: seq<T>, p: T -> bool, q: T -> bool)
    requires FirstWhere(xs, p).Some? && q(FirstWhere(xs, p).value)
    requires forall k :: 0 <= k < |xs| && q(xs[k]) ==> p(xs[k])
    ensures FirstWhere(xs, q) == FirstWhere(xs, p)
  {
  }

  /** What a loop appending f(x) for each x builds. */
  function FlatMap<T, U>(xs: seq<T>, f: T -> seq<U>): seq<U> {
    if xs == [] then [] else f(xs[0]) + FlatMap(xs[1..], f)
  }

  lemma {:induction false} FlatMapConcat<T, U>(a: seq<T>, b: seq<T>, f: T -> seq<U>)
    ensures FlatMap(a + b, f) == FlatMap(a, f) + FlatMap(b, f)
  {
    if a == [] {
      assert a + b == b;
    } else {
      assert (a + b)[1..] == a[1..] + b;
      FlatMapConcat(a[1..], b, f);
    }
  }

  lemma FlatMapStep<T, U>(xs: seq<T>, i: nat, f: T -> seq<U>)
    requires i < |xs|
    ensures FlatMap(xs[..i + 1], f) == FlatMap(xs[..i], f) + f(xs[i])
  {
    assert xs[..i + 1] == xs[..i] + [xs[i]];
    FlatMapConcat(xs[..i], [xs[i]], f);
    assert [xs[i]][1..] == [];
    assert FlatMap([xs[i]], f) == f(xs[i]) + [];
  }

  lemma {:induction false} FlatMapContains<T, U>(xs: seq<T>, f: T -> seq<U>, y: U)
    ensures y in FlatMap(xs, f) <==> exists x :: x in xs && y in f(x)
  {
    if xs != [] {
      FlatMapContains(xs[1..], f, y);
      assert xs == [xs[0]] + xs[1..];
    }
  }
}

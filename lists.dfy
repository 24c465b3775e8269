/**
 * The LINQ operators the templates use: `Distinct()` and `Except()`. Both
 * keep the first occurrence of each element, in the order of the input.
 */
module Lists {

  predicate NoDuplicates<T(==)>(xs: seq<T>) {
    forall i, j :: 0 <= i < j < |xs| ==> xs[i] != xs[j]
  }

  /** The index of the first occurrence of `x` in `xs`. */
  function FirstIndex<T(==)>(xs: seq<T>, x: T): (r: nat)
    requires x in xs
    ensures r < |xs| && xs[r] == x
    ensures forall k :: 0 <= k < r ==> xs[k] != x
  {
    if xs[0] == x then 0 else 1 + FirstIndex(xs[1..], x)
  }

  /** Elements after the front that differ from it keep their order shifted by one. */
  lemma FirstIndexTail<T>(xs: seq<T>, x: T)
    requires x in xs && xs != [] && xs[0] != x
    ensures x in xs[1..] && FirstIndex(xs, x) == 1 + FirstIndex(xs[1..], x)
  {
  }

  /**
   * The elements of `xs` that are not in `seen`, each once, in the order of
   * their first occurrence: what `Enumerable.Except` and `Enumerable.Distinct`
   * yield, since both add each element to a set of elements already seen.
   */
  function DistinctFrom<T(==,!new)>(xs: seq<T>, seen: set<T>): (r: seq<T>)
    ensures forall x :: x in r <==> x in xs && x !in seen
    ensures NoDuplicates(r)
    ensures forall i, j :: 0 <= i < j < |r| ==> FirstIndex(xs, r[i]) < FirstIndex(xs, r[j])
  {
    if xs == [] then []
    else
      var rest := DistinctFrom(xs[1..], seen + {xs[0]});
      if xs[0] in seen then
        var skip := DistinctFrom(xs[1..], seen);
        FirstIndexAllTail(xs, skip);
        skip
      else
        FirstIndexAllTail(xs, rest);
        [xs[0]] + rest
  }

  lemma FirstIndexAllTail<T>(xs: seq<T>, ys: seq<T>)
    requires xs != []
    requires forall k :: 0 <= k < |ys| ==> ys[k] in xs[1..] && ys[k] != xs[0]
    ensures forall k :: 0 <= k < |ys| ==> FirstIndex(xs, ys[k]) == 1 + FirstIndex(xs[1..], ys[k])
  {
    forall k | 0 <= k < |ys| ensures FirstIndex(xs, ys[k]) == 1 + FirstIndex(xs[1..], ys[k]) {
      FirstIndexTail(xs, ys[k]);
    }
  }

  /** The set of the elements of a sequence. */
  function Elements<T(!new)>(xs: seq<T>): (r: set<T>)
    ensures forall x :: x in r <==> x in xs
  {
    set x | x in xs
  }

  /** `xs.Distinct()`. */
  function Distinct<T(==,!new)>(xs: seq<T>): seq<T> {
    DistinctFrom(xs, {})
  }

  /** `xs.Except(ys)`: the distinct elements of `xs` not in `ys`, in order. */
  function Except<T(==,!new)>(xs: seq<T>, ys: seq<T>): seq<T> {
    DistinctFrom(xs, Elements(ys))
  }

  /** A sequence without duplicates is its own `Distinct()`. */
  lemma {:induction false} DistinctOfDistinct<T(!new)>(xs: seq<T>, seen: set<T>)
    requires NoDuplicates(xs)
    requires forall i :: 0 <= i < |xs| ==> xs[i] !in seen
    ensures DistinctFrom(xs, seen) == xs
  {
    if xs != [] {
      var tail := xs[1..];
      assert forall i :: 0 <= i < |tail| ==> tail[i] == xs[i + 1];
      assert forall i :: 0 <= i < |tail| ==> tail[i] !in seen + {xs[0]};
      assert NoDuplicates(tail);
      DistinctOfDistinct(tail, seen + {xs[0]});
    }
  }

  /** An element is in a non-empty sequence exactly when it is in the front or is the last element. */
  lemma InFrontOrLast<T>(xs: seq<T>, x: T)
    requires xs != []
    ensures x in xs <==> x in xs[..|xs| - 1] || x == xs[|xs| - 1]
  {
    assert xs == xs[..|xs| - 1] + [xs[|xs| - 1]];
  }
}

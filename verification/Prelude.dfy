/** Stock definitions shared by the other modules. */
module Prelude {

  datatype Option<+T> = None | Some(value: T)

  datatype Result<+T, +E> = Ok(value: T) | Err(error: E)

  function Min(a: int, b: int): int {
    if a < b then a else b
  }

  function Max(a: int, b: int): int {
    if a < b then b else a
  }

  lemma TakeSnoc<T>(xs: seq<T>, i: nat)
    requires i < |xs|
    ensures xs[..i + 1] == xs[..i] + [xs[i]]
  {
  }

  lemma InitLast<T>(xs: seq<T>)
    requires xs != []
    ensures xs == xs[..|xs| - 1] + [xs[|xs| - 1]]
  {
  }

  lemma SplitAround<T>(xs: seq<T>, k: nat)
    requires k < |xs|
    ensures xs == xs[..k] + ([xs[k]] + xs[k + 1..])
  {
  }

  lemma ConcatSnoc<T>(xs: seq<T>, ys: seq<T>)
    requires ys != []
    ensures xs + ys == (xs + ys[..|ys| - 1]) + [ys[|ys| - 1]]
  {
  }

  /** No value occurs twice. */
  ghost predicate Distinct<T>(xs: seq<T>) {
    forall i, j :: 0 <= i < j < |xs| ==> xs[i] != xs[j]
  }

  /** A duplicate-free sequence is determined, up to order, by its elements. */
  lemma {:induction false} DistinctCount<T>(xs: seq<T>, x: T)
    requires Distinct(xs)
    ensures multiset(xs)[x] == if x in xs then 1 else 0
  {
    if xs != [] {
      var init, last := xs[..|xs| - 1], xs[|xs| - 1];
      assert xs == init + [last];
      DistinctCount(init, x);
    }
  }

  lemma DistinctPermutation<T>(xs: seq<T>, ys: seq<T>)
    requires Distinct(xs) && Distinct(ys)
    requires forall x :: x in xs <==> x in ys
    ensures multiset(xs) == multiset(ys)
  {
    forall x ensures multiset(xs)[x] == multiset(ys)[x] {
      DistinctCount(xs, x);
      DistinctCount(ys, x);
    }
  }

  function Map<T, U>(xs: seq<T>, f: T -> U): (ys: seq<U>)
    ensures |ys| == |xs|
  {
    seq(|xs|, i requires 0 <= i < |xs| => f(xs[i]))
  }

  function FlatMap<T, U>(xs: seq<T>, f: T -> seq<U>): seq<U> {
    if xs == [] then [] else FlatMap(xs[..|xs| - 1], f) + f(xs[|xs| - 1])
  }

  lemma FlatMapTake<T, U>(xs: seq<T>, i: nat, f: T -> seq<U>)
    requires i < |xs|
    ensures FlatMap(xs[..i + 1], f) == FlatMap(xs[..i], f) + f(xs[i])
  {
    assert xs[..i + 1][..i] == xs[..i];
  }

  lemma FlatMapSnoc<T, U>(xs: seq<T>, x: T, f: T -> seq<U>)
    ensures FlatMap(xs + [x], f) == FlatMap(xs, f) + f(x)
  {
    assert (xs + [x])[..|xs|] == xs;
  }

  lemma {:induction false} FlatMapConcat<T, U>(xs: seq<T>, ys: seq<T>, f: T -> seq<U>)
    ensures FlatMap(xs + ys, f) == FlatMap(xs, f) + FlatMap(ys, f)
  {
    if ys == [] {
      assert xs + ys == xs;
    } else {
      var init, y := ys[..|ys| - 1], ys[|ys| - 1];
      ConcatSnoc(xs, ys);
      FlatMapConcat(xs, init, f);
      FlatMapSnoc(xs + init, y, f);
    }
  }

  /** The bag union of f over the elements of xs. */
  ghost function Sum<T, L>(xs: seq<T>, f: T -> multiset<L>): multiset<L> {
    if xs == [] then multiset{} else Sum(xs[..|xs| - 1], f) + f(xs[|xs| - 1])
  }

  lemma SumSnoc<T, L>(xs: seq<T>, x: T, f: T -> multiset<L>)
    ensures Sum(xs + [x], f) == Sum(xs, f) + f(x)
  {
    assert (xs + [x])[..|xs|] == xs;
  }

  lemma {:induction false} SumConcat<T, L>(xs: seq<T>, ys: seq<T>, f: T -> multiset<L>)
    ensures Sum(xs + ys, f) == Sum(xs, f) + Sum(ys, f)
  {
    if ys == [] {
      assert xs + ys == xs;
    } else {
      var init, y := ys[..|ys| - 1], ys[|ys| - 1];
      ConcatSnoc(xs, ys);
      SumConcat(xs, init, f);
      SumSnoc(xs + init, y, f);
    }
  }

  lemma {:induction false} SumCongruent<T, L>(xs: seq<T>, f: T -> multiset<L>, g: T -> multiset<L>)
    requires forall x :: x in xs ==> f(x) == g(x)
    ensures Sum(xs, f) == Sum(xs, g)
  {
    if xs != [] {
      SumCongruent(xs[..|xs| - 1], f, g);
    }
  }

  lemma SumMiddle<T, L>(before: seq<T>, x: T, after: seq<T>, f: T -> multiset<L>)
    ensures Sum(before + ([x] + after), f) == f(x) + Sum(before + after, f)
  {
    SumConcat(before, after, f);
    SumConcat(before, [x] + after, f);
    SumConcat([x], after, f);
    SumSnoc([], x, f);
    assert [] + [x] == [x];
  }

  lemma SameWithoutHead<T>(x: T, rest: seq<T>, before: seq<T>, after: seq<T>)
    requires multiset([x] + rest) == multiset(before + ([x] + after))
    ensures multiset(rest) == multiset(before + after)
  {
    assert multiset([x] + rest) == multiset{x} + multiset(rest);
    assert multiset(before + ([x] + after)) == multiset{x} + multiset(before + after);
    assert multiset(rest) == multiset{x} + multiset(rest) - multiset{x};
    assert multiset(before + after) == multiset{x} + multiset(before + after) - multiset{x};
  }

  /** A sum does not depend on the order of its terms. */
  lemma {:induction false} SumPermuted<T, L>(xs: seq<T>, ys: seq<T>, f: T -> multiset<L>)
    requires multiset(xs) == multiset(ys)
    ensures Sum(xs, f) == Sum(ys, f)
  {
    if xs == [] {
      assert |multiset(ys)| == 0;
    } else {
      assert xs[0] in multiset(ys);
      var k :| 0 <= k < |ys| && ys[k] == xs[0];
      var before, after := ys[..k], ys[k + 1..];
      SplitAround(ys, k);
      assert xs == [] + ([xs[0]] + xs[1..]);
      assert [xs[0]] + xs[1..] == xs && [] + xs[1..] == xs[1..];
      SameWithoutHead(xs[0], xs[1..], before, after);
      SumPermuted(xs[1..], before + after, f);
      SumMiddle(before, xs[0], after, f);
      SumMiddle([], xs[0], xs[1..], f);
    }
  }

  /** When every term is a single tag, the sum is the bag of the tags. */
  lemma {:induction false} SumOfSingles<T, L>(xs: seq<T>, f: T -> multiset<L>, tag: T -> L)
    requires forall x :: x in xs ==> f(x) == multiset{tag(x)}
    ensures Sum(xs, f) == multiset(Map(xs, tag))
  {
    if xs != [] {
      SumOfSingles(xs[..|xs| - 1], f, tag);
      assert Map(xs, tag) == Map(xs[..|xs| - 1], tag) + [tag(xs[|xs| - 1])];
    }
  }

  lemma {:induction false} SumTagged<T, L>(xs: seq<T>, f: T -> multiset<L>, tags: seq<L>)
    requires |tags| == |xs|
    requires forall i :: 0 <= i < |xs| ==> f(xs[i]) == multiset{tags[i]}
    ensures Sum(xs, f) == multiset(tags)
  {
    if xs != [] {
      var n := |xs| - 1;
      SumTagged(xs[..n], f, tags[..n]);
      assert tags == tags[..n] + [tags[n]];
    }
  }

  lemma {:induction false} SumOfNothing<T, L>(xs: seq<T>, f: T -> multiset<L>)
    requires forall x :: x in xs ==> f(x) == multiset{}
    ensures Sum(xs, f) == multiset{}
  {
    if xs != [] {
      SumOfNothing(xs[..|xs| - 1], f);
    }
  }

  lemma {:induction false} SumMapSingles<S, T, L>(xs: seq<S>, f: S -> T, view: T -> multiset<L>, tag: S -> L)
    requires forall s :: view(f(s)) == multiset{tag(s)}
    ensures Sum(Map(xs, f), view) == multiset(Map(xs, tag))
  {
    if xs != [] {
      var init, x := xs[..|xs| - 1], xs[|xs| - 1];
      SumMapSingles(init, f, view, tag);
      assert Map(xs, f)[..|xs| - 1] == Map(init, f);
      assert Map(xs, tag) == Map(init, tag) + [tag(x)];
    }
  }

  lemma {:induction false} SumMapNothing<S, T, L>(xs: seq<S>, f: S -> T, view: T -> multiset<L>)
    requires forall s :: view(f(s)) == multiset{}
    ensures Sum(Map(xs, f), view) == multiset{}
  {
    if xs != [] {
      SumMapNothing(xs[..|xs| - 1], f, view);
      assert Map(xs, f)[..|xs| - 1] == Map(xs[..|xs| - 1], f);
    }
  }
}

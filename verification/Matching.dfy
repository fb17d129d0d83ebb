/**
 The greedy one-to-one matching that the tamper diff uses twice: by version inside one key group, and by name
 between removals and injections. The code pops the first equal partner from a shrinking pool; the specification
 says which elements stay unmatched without mentioning the pool.
 */
module Matching {
  import opened Prelude

  /** The tags of xs, with multiplicity. */
  function Bag<T, L>(xs: seq<T>, tag: T -> L): multiset<L> {
    multiset(Map(xs, tag))
  }

  /** An element stays unmatched when `partners` has no more copies of its tag than the elements before it. */
  function Leftover<T, L>(xs: seq<T>, tag: T -> L, partners: multiset<L>): (rest: seq<T>)
    ensures |rest| <= |xs|
  {
    if xs == [] then []
    else
      var init, x := xs[..|xs| - 1], xs[|xs| - 1];
      var rest := Leftover(init, tag, partners);
      if Bag(init, tag)[tag(x)] >= partners[tag(x)] then rest + [x] else rest
  }

  /** The elements that found a partner. */
  function Matched<T, L>(xs: seq<T>, tag: T -> L, partners: multiset<L>): (found: seq<T>)
    ensures |found| <= |xs|
  {
    if xs == [] then []
    else
      var init, x := xs[..|xs| - 1], xs[|xs| - 1];
      var found := Matched(init, tag, partners);
      if Bag(init, tag)[tag(x)] >= partners[tag(x)] then found else found + [x]
  }

  /** Position of the first element with tag l, or |xs| when there is none. */
  function FirstIndex<T, L(==)>(xs: seq<T>, tag: T -> L, l: L): (k: nat)
    ensures k <= |xs|
    ensures k < |xs| ==> tag(xs[k]) == l
    ensures forall j :: 0 <= j < k ==> tag(xs[j]) != l
  {
    if xs == [] then 0
    else if tag(xs[0]) == l then 0
    else 1 + FirstIndex(xs[1..], tag, l)
  }

  function RemoveAt<T>(xs: seq<T>, k: nat): seq<T>
    requires k < |xs|
  {
    xs[..k] + xs[k + 1..]
  }

  ghost function Without<T, L>(xs: seq<T>, tag: T -> L, l: L): seq<T> {
    var k := FirstIndex(xs, tag, l);
    if k < |xs| then RemoveAt(xs, k) else xs
  }

  lemma BagAppend<T, L>(xs: seq<T>, ys: seq<T>, tag: T -> L)
    ensures Bag(xs + ys, tag) == Bag(xs, tag) + Bag(ys, tag)
  {
    assert Map(xs + ys, tag) == Map(xs, tag) + Map(ys, tag);
  }

  lemma BagSnoc<T, L>(xs: seq<T>, x: T, tag: T -> L)
    ensures Bag(xs + [x], tag) == Bag(xs, tag) + multiset{tag(x)}
  {
    assert Map(xs + [x], tag) == Map(xs, tag) + [tag(x)];
  }

  lemma BagInit<T, L>(xs: seq<T>, tag: T -> L)
    requires xs != []
    ensures Bag(xs, tag) == Bag(xs[..|xs| - 1], tag) + multiset{tag(xs[|xs| - 1])}
  {
    assert xs == xs[..|xs| - 1] + [xs[|xs| - 1]];
    BagSnoc(xs[..|xs| - 1], xs[|xs| - 1], tag);
  }

  lemma BagSize<T, L>(xs: seq<T>, tag: T -> L)
    ensures |Bag(xs, tag)| == |xs|
  {
  }

  lemma BagHas<T, L>(xs: seq<T>, tag: T -> L, l: L)
    ensures l in Bag(xs, tag) <==> FirstIndex(xs, tag, l) < |xs|
  {
    var k := FirstIndex(xs, tag, l);
    if k < |xs| {
      assert Map(xs, tag)[k] == l;
    } else {
      assert forall j :: 0 <= j < |xs| ==> Map(xs, tag)[j] != l;
    }
  }

  /** What is left is exactly the multiset difference of the labels. */
  lemma {:induction false} LeftoverBag<T, L>(xs: seq<T>, tag: T -> L, partners: multiset<L>)
    ensures Bag(Leftover(xs, tag, partners), tag) == Bag(xs, tag) - partners
  {
    if xs != [] {
      var init, x := xs[..|xs| - 1], xs[|xs| - 1];
      LeftoverBag(init, tag, partners);
      BagInit(xs, tag);
      BagSnoc(Leftover(init, tag, partners), x, tag);
    }
  }

  lemma {:induction false} MatchedBag<T, L>(xs: seq<T>, tag: T -> L, partners: multiset<L>)
    ensures Bag(Matched(xs, tag, partners), tag) == Bag(xs, tag) * partners
    ensures multiset(xs) == multiset(Matched(xs, tag, partners)) + multiset(Leftover(xs, tag, partners))
  {
    if xs != [] {
      var init, x := xs[..|xs| - 1], xs[|xs| - 1];
      assert xs == init + [x];
      MatchedBag(init, tag, partners);
      BagInit(xs, tag);
      BagSnoc(Matched(init, tag, partners), x, tag);
    }
  }

  lemma {:induction false} LeftoverOfNothing<T, L>(xs: seq<T>, tag: T -> L)
    ensures Leftover(xs, tag, multiset{}) == xs
  {
    if xs != [] {
      LeftoverOfNothing(xs[..|xs| - 1], tag);
      assert xs == xs[..|xs| - 1] + [xs[|xs| - 1]];
    }
  }

  lemma {:induction false} FirstIndexSnoc<T, L>(xs: seq<T>, x: T, tag: T -> L, l: L)
    ensures FirstIndex(xs + [x], tag, l) ==
            if FirstIndex(xs, tag, l) < |xs| then FirstIndex(xs, tag, l)
            else if tag(x) == l then |xs| else |xs| + 1
  {
    if xs == [] {
      assert (xs + [x])[1..] == [];
    } else {
      assert (xs + [x])[1..] == xs[1..] + [x];
      FirstIndexSnoc(xs[1..], x, tag, l);
    }
  }

  lemma WithoutSnoc<T, L>(xs: seq<T>, x: T, tag: T -> L, l: L)
    ensures l in Bag(xs, tag) ==> Without(xs + [x], tag, l) == Without(xs, tag, l) + [x]
    ensures l !in Bag(xs, tag) && tag(x) == l ==> Without(xs + [x], tag, l) == xs
    ensures l !in Bag(xs, tag) && tag(x) != l ==> Without(xs + [x], tag, l) == xs + [x]
    ensures l !in Bag(xs, tag) ==> Without(xs, tag, l) == xs
  {
    BagHas(xs, tag, l);
    FirstIndexSnoc(xs, x, tag, l);
    var k := FirstIndex(xs, tag, l);
    if k < |xs| {
      assert RemoveAt(xs + [x], k) == RemoveAt(xs, k) + [x];
    } else if tag(x) == l {
      assert RemoveAt(xs + [x], |xs|) == xs;
    }
  }

  /** One more partner with tag l removes the first unmatched element with that tag, if any. */
  lemma {:induction false} LeftoverStep<T, L>(xs: seq<T>, tag: T -> L, partners: multiset<L>, l: L)
    ensures Leftover(xs, tag, partners + multiset{l}) == Without(Leftover(xs, tag, partners), tag, l)
  {
    if xs != [] {
      var init, x := xs[..|xs| - 1], xs[|xs| - 1];
      LeftoverStep(init, tag, partners, l);
      LeftoverBag(init, tag, partners);
      WithoutSnoc(Leftover(init, tag, partners), x, tag, l);
    }
  }

  /** What one iteration of the matching loop does to both sides. */
  lemma GreedyStep<T, L>(before: seq<T>, o: T, submitted: seq<T>, tag: T -> L)
    ensures var pool := Leftover(submitted, tag, Bag(before, tag));
            var k := FirstIndex(pool, tag, tag(o));
            && Leftover(submitted, tag, Bag(before + [o], tag)) == (if k < |pool| then RemoveAt(pool, k) else pool)
            && Leftover(before + [o], tag, Bag(submitted, tag)) ==
               if k < |pool| then Leftover(before, tag, Bag(submitted, tag))
               else Leftover(before, tag, Bag(submitted, tag)) + [o]
  {
    var pool := Leftover(submitted, tag, Bag(before, tag));
    BagSnoc(before, o, tag);
    LeftoverStep(submitted, tag, Bag(before, tag), tag(o));
    LeftoverBag(submitted, tag, Bag(before, tag));
    BagHas(pool, tag, tag(o));
    assert (before + [o])[..|before|] == before;
  }

  /**
   The code's loop: every original looks for the first pool element with an equal tag and takes it out of the
   pool, or is pushed on the unmatched list.
   */
  method GreedyMatch<T, L(==)>(originals: seq<T>, submitted: seq<T>, tag: T -> L)
    returns (unmatchedOrig: seq<T>, unmatchedSub: seq<T>)
    ensures unmatchedOrig == Leftover(originals, tag, Bag(submitted, tag))
    ensures unmatchedSub == Leftover(submitted, tag, Bag(originals, tag))
  {
    unmatchedOrig, unmatchedSub := [], submitted;
    LeftoverOfNothing(submitted, tag);
    assert Map(originals[..0], tag) == [];
    var i := 0;
    while i < |originals|
      invariant 0 <= i <= |originals|
      invariant unmatchedOrig == Leftover(originals[..i], tag, Bag(submitted, tag))
      invariant unmatchedSub == Leftover(submitted, tag, Bag(originals[..i], tag))
    {
      var o := originals[i];
      var matchIdx := FirstIndex(unmatchedSub, tag, tag(o));
      GreedyStep(originals[..i], o, submitted, tag);
      TakeSnoc(originals, i);
      if matchIdx < |unmatchedSub| {
        unmatchedSub := RemoveAt(unmatchedSub, matchIdx);
      } else {
        unmatchedOrig := unmatchedOrig + [o];
      }
      i := i + 1;
    }
    assert originals[..i] == originals;
  }

  /** A matching given by positions: no position used twice, partners carry equal labels. */
  ghost predicate IsMatching<T, L>(pairs: seq<(nat, nat)>, xs: seq<T>, ys: seq<T>, tag: T -> L) {
    && (forall k :: 0 <= k < |pairs| ==>
          pairs[k].0 < |xs| && pairs[k].1 < |ys| && tag(xs[pairs[k].0]) == tag(ys[pairs[k].1]))
    && (forall j, k :: 0 <= j < k < |pairs| ==> pairs[j].0 != pairs[k].0 && pairs[j].1 != pairs[k].1)
  }

  ghost function Pick<T, L>(xs: seq<T>, at: seq<nat>, tag: T -> L): seq<L>
    requires forall k :: 0 <= k < |at| ==> at[k] < |xs|
  {
    seq(|at|, k requires 0 <= k < |at| => tag(xs[at[k]]))
  }

  lemma PickSplit<T, L>(xs: seq<T>, before: seq<nat>, k: nat, after: seq<nat>, tag: T -> L)
    requires k < |xs|
    requires forall i :: 0 <= i < |before| ==> before[i] < |xs|
    requires forall i :: 0 <= i < |after| ==> after[i] < |xs|
    ensures multiset(Pick(xs, before + [k] + after, tag)) == multiset(Pick(xs, before + after, tag)) + multiset{tag(xs[k])}
  {
    assert Pick(xs, before + [k] + after, tag) == Pick(xs, before, tag) + [tag(xs[k])] + Pick(xs, after, tag);
    assert Pick(xs, before + after, tag) == Pick(xs, before, tag) + Pick(xs, after, tag);
  }

  lemma DistinctWithout<T>(before: seq<T>, x: T, after: seq<T>)
    requires Distinct(before + [x] + after)
    ensures Distinct(before + after)
    ensures x !in before + after
  {
    var all := before + [x] + after;
    assert forall i :: 0 <= i < |before| ==> all[i] == before[i];
    assert forall i :: 0 <= i < |after| ==> all[|before| + 1 + i] == after[i];
    assert all[|before|] == x;
  }

  /** Tags read at distinct positions form a sub-bag. */
  lemma {:induction false} PickIsSubBag<T, L>(xs: seq<T>, at: seq<nat>, tag: T -> L)
    requires forall k :: 0 <= k < |at| ==> at[k] < |xs|
    requires Distinct(at)
    ensures multiset(Pick(xs, at, tag)) <= Bag(xs, tag)
    decreases |xs|, 1
  {
    if at == [] {
      assert Pick(xs, at, tag) == [];
    } else {
      assert at[0] < |xs|;
      var n := |xs| - 1;
      BagInit(xs, tag);
      if n in at {
        var k :| 0 <= k < |at| && at[k] == n;
        PickWithLast(xs, at[..k], at[k + 1..], at, tag);
      } else {
        forall k | 0 <= k < |at| ensures at[k] < n {
          assert at[k] in at;
        }
        PickIsSubBag(xs[..n], at, tag);
        assert Pick(xs[..n], at, tag) == Pick(xs, at, tag);
      }
    }
  }

  lemma {:induction false} PickWithLast<T, L>(xs: seq<T>, before: seq<nat>, after: seq<nat>, at: seq<nat>, tag: T -> L)
    requires xs != [] && at == before + [|xs| - 1] + after
    requires forall k :: 0 <= k < |at| ==> at[k] < |xs|
    requires Distinct(at)
    ensures multiset(Pick(xs, at, tag)) <= Bag(xs, tag)
    decreases |xs|, 0
  {
    var n := |xs| - 1;
    var rest := before + after;
    assert forall i :: 0 <= i < |before| ==> before[i] == at[i];
    assert forall i :: 0 <= i < |after| ==> after[i] == at[|before| + 1 + i];
    DistinctWithout(before, n, after);
    forall k | 0 <= k < |rest| ensures rest[k] < n {
      assert rest[k] in rest;
      assert rest[k] == if k < |before| then at[k] else at[k + 1];
    }
    PickSplit(xs, before, n, after, tag);
    PickIsSubBag(xs[..n], rest, tag);
    assert Pick(xs[..n], rest, tag) == Pick(xs, rest, tag);
    BagInit(xs, tag);
  }

  lemma SubBagSize<L>(a: multiset<L>, b: multiset<L>)
    requires a <= b
    ensures |a| <= |b|
  {
    assert b == a + (b - a);
  }

  /** The greedy matching pairs as many elements as any one-to-one matching of equal labels can. */
  lemma GreedyIsOptimal<T, L>(pairs: seq<(nat, nat)>, xs: seq<T>, ys: seq<T>, tag: T -> L)
    requires IsMatching(pairs, xs, ys, tag)
    ensures |pairs| <= |Bag(xs, tag) * Bag(ys, tag)|
    ensures |Bag(xs, tag) * Bag(ys, tag)| == |xs| - |Leftover(xs, tag, Bag(ys, tag))|
  {
    var firsts := seq(|pairs|, k requires 0 <= k < |pairs| => pairs[k].0);
    var seconds := seq(|pairs|, k requires 0 <= k < |pairs| => pairs[k].1);
    PickIsSubBag(xs, firsts, tag);
    PickIsSubBag(ys, seconds, tag);
    assert Pick(xs, firsts, tag) == Pick(ys, seconds, tag);
    SubBagSize(multiset(Pick(xs, firsts, tag)), Bag(xs, tag) * Bag(ys, tag));
    LeftoverSize(xs, ys, tag);
  }

  lemma LeftoverSize<T, L>(xs: seq<T>, ys: seq<T>, tag: T -> L)
    ensures |Leftover(xs, tag, Bag(ys, tag))| == |xs| - |Bag(xs, tag) * Bag(ys, tag)|
  {
    LeftoverBag(xs, tag, Bag(ys, tag));
    var x, y := Bag(xs, tag), Bag(ys, tag);
    assert x == (x - y) + (x * y);
    BagSize(xs, tag);
    BagSize(Leftover(xs, tag, y), tag);
  }
}

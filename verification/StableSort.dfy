/** The stable array sort that the code calls with a comparator, as an insertion sort. */
module StableSort {
  import opened Prelude

  type Comparator<!T> = (T, T) -> int

  /** Goes behind every element that is not greater. */
  function Insert<T>(cmp: Comparator<T>, sorted: seq<T>, x: T): (r: seq<T>)
    ensures |r| == |sorted| + 1
  {
    if sorted == [] then [x]
    else
      var last := sorted[|sorted| - 1];
      if cmp(x, last) < 0 then Insert(cmp, sorted[..|sorted| - 1], x) + [last] else sorted + [x]
  }

  function Sorted<T>(cmp: Comparator<T>, xs: seq<T>): (sorted: seq<T>)
    ensures |sorted| == |xs|
  {
    if xs == [] then [] else Insert(cmp, Sorted(cmp, xs[..|xs| - 1]), xs[|xs| - 1])
  }

  lemma {:induction false} InsertHas<T>(cmp: Comparator<T>, sorted: seq<T>, x: T)
    ensures forall y :: y in Insert(cmp, sorted, x) <==> y in sorted || y == x
  {
    if sorted != [] {
      InitLast(sorted);
      InsertHas(cmp, sorted[..|sorted| - 1], x);
    }
  }

  method SortStable<T>(cmp: Comparator<T>, a: array<T>)
    modifies a
    ensures a[..] == Sorted(cmp, old(a[..]))
  {
    ghost var before := a[..];
    var i := 0;
    while i < a.Length
      invariant 0 <= i <= a.Length == |before|
      invariant a[..i] == Sorted(cmp, before[..i])
      invariant forall j :: i <= j < a.Length ==> a[j] == before[j]
    {
      assert before[..i + 1][..i] == before[..i];
      InsertInPlace(cmp, a, i);
      i := i + 1;
    }
    assert a[..] == a[..i] && before == before[..i];
  }

  method InsertInPlace<T>(cmp: Comparator<T>, a: array<T>, n: nat)
    requires n < a.Length
    modifies a
    ensures a[..n + 1] == Insert(cmp, old(a[..n]), old(a[n]))
    ensures forall j :: n < j < a.Length ==> a[j] == old(a[j])
  {
    var x := a[n];
    var k := n;
    ghost var before := a[..n];
    while k > 0 && cmp(x, a[k - 1]) < 0
      invariant 0 <= k <= n
      invariant forall j :: 0 <= j < k ==> a[j] == before[j]
      invariant forall j :: k <= j < n ==> a[j + 1] == before[j] && cmp(x, before[j]) < 0
      invariant forall j :: n < j < a.Length ==> a[j] == old(a[j])
    {
      a[k] := a[k - 1];
      k := k - 1;
    }
    a[k] := x;
    InsertAt(cmp, before, k, x);
    Spliced(a[..n + 1], before, k, x);
  }

  /** Where an element goes: before the run of greater elements at the end. */
  lemma {:induction false} InsertAt<T>(cmp: Comparator<T>, before: seq<T>, k: nat, x: T)
    requires k <= |before| && (k > 0 ==> cmp(x, before[k - 1]) >= 0)
    requires forall j :: k <= j < |before| ==> cmp(x, before[j]) < 0
    ensures Insert(cmp, before, x) == (before[..k] + [x]) + before[k..]
  {
    var n := |before| - 1;
    if k <= n {
      InsertAt(cmp, before[..n], k, x);
      assert before[..n][..k] == before[..k];
      assert before[k..] == before[..n][k..] + [before[n]];
    } else {
      assert before[..k] == before && before[k..] == [];
    }
  }

  lemma Spliced<T>(row: seq<T>, before: seq<T>, k: nat, x: T)
    requires k <= |before| && |row| == |before| + 1 && row[k] == x
    requires forall j :: 0 <= j < k ==> row[j] == before[j]
    requires forall j :: k <= j < |before| ==> row[j + 1] == before[j]
    ensures row == (before[..k] + [x]) + before[k..]
  {
    forall j | 0 <= j < |row| ensures row[j] == ((before[..k] + [x]) + before[k..])[j] {
      if j > k {
        assert row[(j - 1) + 1] == before[j - 1];
      }
    }
  }
}

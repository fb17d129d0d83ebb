/** What a tamper report says about the two documents. */
module DiffTheorems {
  import opened Prelude
  import opened Matching
  import opened Diff

  // ---------------------------------------------------------------- one key group

  ghost function Pairs(uo: seq<Entry>, us: seq<Entry>): (pairs: seq<Action>)
    ensures forall a :: a in pairs ==> a.status == Modified
  {
    seq(Min(|uo|, |us|), i requires 0 <= i < Min(|uo|, |us|) => ModifiedPair(uo[i], us[i]))
  }

  lemma PairUpSize(uo: seq<Entry>, us: seq<Entry>)
    ensures |PairUp(uo, us)| == Max(|uo|, |us|)
  {
  }

  /**
   Per key, the number of reported actions is the larger group minus the versions the two groups share. No one-to-one
   matching of equal versions, of any size, leaves fewer.
   */
  lemma GroupIsOptimal(os: seq<Entry>, ss: seq<Entry>, pairs: seq<(nat, nat)>)
    requires IsMatching(pairs, os, ss, VersionOf)
    ensures |GroupActions(os, ss)| == Max(|os|, |ss|) - |Bag(os, VersionOf) * Bag(ss, VersionOf)|
    ensures |GroupActions(os, ss)| <= Max(|os|, |ss|) - |pairs|
  {
    GreedyIsOptimal(pairs, os, ss, VersionOf);
    LeftoverSize(ss, os, VersionOf);
    assert Bag(os, VersionOf) * Bag(ss, VersionOf) == Bag(ss, VersionOf) * Bag(os, VersionOf);
    PairUpSize(Leftover(os, VersionOf, Bag(ss, VersionOf)), Leftover(ss, VersionOf, Bag(os, VersionOf)));
  }

  lemma LeftoversDisjoint(os: seq<Entry>, ss: seq<Entry>)
    ensures Bag(Leftover(os, VersionOf, Bag(ss, VersionOf)), VersionOf) !! Bag(Leftover(ss, VersionOf, Bag(os, VersionOf)), VersionOf)
  {
    LeftoverBag(os, VersionOf, Bag(ss, VersionOf));
    LeftoverBag(ss, VersionOf, Bag(os, VersionOf));
  }

  lemma PairUpPositions(uo: seq<Entry>, us: seq<Entry>, i: nat)
    requires i < |PairUp(uo, us)|
    ensures PairUp(uo, us)[i].status == Modified ==> i < |uo| && i < |us| && PairUp(uo, us)[i] == ModifiedPair(uo[i], us[i])
  {
    var m := Min(|uo|, |us|);
    var pairs, rem, add := Pairs(uo, us), Map(uo[m..], RemovedOf), Map(us[m..], AddedOf);
    assert PairUp(uo, us) == pairs + rem + add;
    if i < m {
      assert PairUp(uo, us)[i] == pairs[i];
    } else if i < |uo| {
      assert PairUp(uo, us)[i] == rem[i - m] == RemovedOf(uo[i]);
    } else {
      assert PairUp(uo, us)[i] == add[i - m - |rem|] == AddedOf(us[i - |rem|]);
    }
  }

  lemma DisjointTags<T, L>(xs: seq<T>, ys: seq<T>, tag: T -> L, i: nat, j: nat)
    requires Bag(xs, tag) !! Bag(ys, tag)
    requires i < |xs| && j < |ys|
    ensures tag(xs[i]) != tag(ys[j])
  {
    assert Map(xs, tag)[i] in Bag(xs, tag);
    assert Map(ys, tag)[j] in Bag(ys, tag);
  }

  /** Leftovers of the two sides carry no common version, so a modification found by version is a real one. */
  lemma GroupModificationsDiffer(os: seq<Entry>, ss: seq<Entry>, i: nat)
    requires i < |GroupActions(os, ss)|
    ensures GroupActions(os, ss)[i].status == Modified ==>
              GroupActions(os, ss)[i].originalVersion != GroupActions(os, ss)[i].modifiedVersion
  {
    var uo, us := Leftover(os, VersionOf, Bag(ss, VersionOf)), Leftover(ss, VersionOf, Bag(os, VersionOf));
    LeftoversDisjoint(os, ss);
    PairUpPositions(uo, us, i);
    if i < |uo| && i < |us| {
      DisjointTags(uo, us, VersionOf, i, i);
    }
  }

  lemma NoDifferenceIffEqual<L>(x: multiset<L>, y: multiset<L>)
    ensures |x - y| == 0 && |y - x| == 0 <==> x == y
  {
    if |x - y| == 0 && |y - x| == 0 {
      forall v ensures x[v] == y[v] {
        assert (x - y)[v] == 0 && (y - x)[v] == 0;
      }
    }
  }

  lemma GroupEmptyIff(os: seq<Entry>, ss: seq<Entry>)
    ensures GroupActions(os, ss) == [] <==> Bag(os, VersionOf) == Bag(ss, VersionOf)
  {
    var x, y := Bag(os, VersionOf), Bag(ss, VersionOf);
    var uo, us := Leftover(os, VersionOf, y), Leftover(ss, VersionOf, x);
    LeftoverBag(os, VersionOf, y);
    LeftoverBag(ss, VersionOf, x);
    BagSize(uo, VersionOf);
    BagSize(us, VersionOf);
    PairUpSize(uo, us);
    NoDifferenceIffEqual(x, y);
  }

  // ---------------------------------------------------------------- soundness and completeness

  /** Pairing by name never silences a report. */
  lemma PairingKeepsFindings(actions: seq<Action>)
    ensures PairedByName(actions) == [] <==> actions == []
  {
  }

  ghost predicate VersionsAgreeAt(original: Document, submitted: Document, key: string) {
    Bag(EntriesAt(original, key), VersionOf) == Bag(EntriesAt(submitted, key), VersionOf)
  }

  lemma SilentGroup(original: Document, submitted: Document, key: string)
    ensures GroupsOf(original, submitted)(key) == [] <==> VersionsAgreeAt(original, submitted, key)
  {
    GroupEmptyIff(EntriesAt(original, key), EntriesAt(submitted, key));
  }

  lemma {:induction false} SilentGroups(original: Document, submitted: Document, keys: seq<string>)
    ensures FlatMap(keys, GroupsOf(original, submitted)) == [] <==> forall k :: k in keys ==> VersionsAgreeAt(original, submitted, k)
  {
    if keys != [] {
      var init, key := keys[..|keys| - 1], keys[|keys| - 1];
      SilentGroups(original, submitted, init);
      SilentGroup(original, submitted, key);
      assert forall k :: k in keys <==> k in init || k == key;
    }
  }

  lemma UnknownKeysAgree(original: Document, submitted: Document, key: string)
    requires key !in AllKeys(original, submitted)
    ensures VersionsAgreeAt(original, submitted, key)
  {
    AllKeysAreAll(original, submitted);
    assert EntriesAt(original, key) == EntriesAt(submitted, key);
  }

  /** Nothing is reported exactly when every stable key carries the same multiset of versions on both sides. */
  lemma SilentIffVersionsAgree(original: Document, submitted: Document)
    ensures Report(original, submitted) == [] <==> forall k :: VersionsAgreeAt(original, submitted, k)
  {
    PairingKeepsFindings(KeyedActions(original, submitted));
    SilentGroups(original, submitted, AllKeys(original, submitted));
    forall k | k !in AllKeys(original, submitted) ensures VersionsAgreeAt(original, submitted, k) {
      UnknownKeysAgree(original, submitted, k);
    }
  }

  /** The version a component contributes to a key group. */
  ghost function VersionAt(key: string): RawItem -> multiset<Option<string>> {
    (c: RawItem) => if c.Component? && StableKey(c) == key then multiset{ToEntry(c).version} else multiset{}
  }

  lemma {:induction false} VersionsAreSums(doc: Document, key: string)
    ensures Bag(EntriesAt(doc, key), VersionOf) == Sum(doc, VersionAt(key))
  {
    if doc != [] {
      var init, c := doc[..|doc| - 1], doc[|doc| - 1];
      VersionsAreSums(init, key);
      if c.Component? && StableKey(c) == key {
        BagSnoc(EntriesAt(init, key), ToEntry(c), VersionOf);
      }
    } else {
      assert Map<Entry, Option<string>>([], VersionOf) == [];
    }
  }

  /** Listing the components in another order is not a finding. */
  lemma ReorderingIsSilent(original: Document, submitted: Document)
    requires multiset(original) == multiset(submitted)
    ensures Report(original, submitted) == []
  {
    forall k ensures VersionsAgreeAt(original, submitted, k) {
      VersionsAreSums(original, k);
      VersionsAreSums(submitted, k);
      SumPermuted(original, submitted, VersionAt(k));
    }
    SilentIffVersionsAgree(original, submitted);
  }

  /** Replacing one element replaces its term of a sum. */
  lemma SumReplaced<T, L>(xs: seq<T>, i: nat, y: T, f: T -> multiset<L>) returns (rest: multiset<L>)
    requires i < |xs|
    ensures Sum(xs, f) == rest + f(xs[i]) && Sum(xs[i := y], f) == rest + f(y)
  {
    rest := Sum(xs[..i] + xs[i + 1..], f);
    SplitAround(xs, i);
    SumMiddle(xs[..i], xs[i], xs[i + 1..], f);
    assert xs[i := y] == xs[..i] + ([y] + xs[i + 1..]);
    SumMiddle(xs[..i], y, xs[i + 1..], f);
    AddCommutes(rest, f(xs[i]));
    AddCommutes(rest, f(y));
  }

  lemma AddCommutes<L>(a: multiset<L>, b: multiset<L>)
    ensures a + b == b + a
  {
  }

  /** A component that only changes its version is always a finding, whatever else the document holds. */
  lemma ChangedVersionIsReported(original: Document, submitted: Document, key: string, v: Option<string>, w: Option<string>, rest: multiset<Option<string>>)
    requires Sum(original, VersionAt(key)) == rest + multiset{v} && Sum(submitted, VersionAt(key)) == rest + multiset{w} && v != w
    ensures Report(original, submitted) != []
  {
    VersionsAreSums(original, key);
    VersionsAreSums(submitted, key);
    assert (rest + multiset{v})[v] == rest[v] + 1 && (rest + multiset{w})[v] == rest[v];
    SilentIffVersionsAgree(original, submitted);
    assert !VersionsAgreeAt(original, submitted, key);
  }

  /** In particular two differently named components without purl and bom-ref cannot trade their versions unnoticed. */
  lemma SwappedVersionsAreReported(original: Document, i: nat, j: nat)
    requires i < |original| && j < |original|
    requires forall k :: k in {i, j} ==> original[k].Component? && original[k].purl == "" && original[k].bomRef == ""
    requires original[i].name != "" && original[j].name != "" && original[i].name != original[j].name
    requires original[i].version != original[j].version
    ensures var submitted := original[i := original[i].(version := original[j].version)][j := original[j].(version := original[i].version)];
            Report(original, submitted) != []
  {
    var c, d := original[i], original[j];
    var c', d' := c.(version := d.version), d.(version := c.version);
    var first := original[i := c'];
    var submitted := first[j := d'];
    NameKeysIff(c, d);
    var key := StableKey(c);
    var f := VersionAt(key);
    assert f(c) == multiset{ToEntry(c).version} && f(c') == multiset{ToEntry(c').version};
    assert f(d) == multiset{} && f(d') == multiset{};
    var rest := SumReplaced(original, i, c', f);
    var other := SumReplaced(first, j, d', f);
    assert Sum(submitted, f) == Sum(first, f);
    ChangedVersionIsReported(original, submitted, key, ToEntry(c).version, ToEntry(c').version, rest);
  }

  // ---------------------------------------------------------------- views of a report

  ghost function RemovedName(a: Action): multiset<string> {
    if a.status == Removed then multiset{a.component} else multiset{}
  }

  ghost function AddedName(a: Action): multiset<string> {
    if a.status == Added then multiset{a.component} else multiset{}
  }

  ghost function ModifiedMark(a: Action): multiset<()> {
    if a.status == Modified then multiset{()} else multiset{}
  }

  /** The original entry that a Removed or Modified action accounts for. */
  ghost function OriginalSide(a: Action): multiset<Entry> {
    if a.status == Added then multiset{} else multiset{Entry(a.component, a.originalVersion)}
  }

  /** The submitted version that an Added or Modified action accounts for. */
  ghost function SubmittedSide(a: Action): multiset<Option<string>> {
    if a.status == Removed then multiset{} else multiset{a.modifiedVersion}
  }

  lemma SumStatusSnoc<L>(init: seq<Action>, a: Action, st: Status, view: Action -> multiset<L>)
    ensures Sum(WithStatus(init + [a], st), view) ==
            Sum(WithStatus(init, st), view) + if a.status == st then view(a) else multiset{}
  {
    WithStatusSnoc(init, a, st);
    if a.status == st {
      SumSnoc(WithStatus(init, st), a, view);
    }
  }

  lemma {:induction false} SumByStatus<L>(actions: seq<Action>, view: Action -> multiset<L>)
    ensures Sum(actions, view) ==
            Sum(WithStatus(actions, Modified), view) + Sum(WithStatus(actions, Removed), view) + Sum(WithStatus(actions, Added), view)
  {
    if actions != [] {
      var init, a := actions[..|actions| - 1], actions[|actions| - 1];
      assert actions == init + [a];
      SumByStatus(init, view);
      SumSnoc(init, a, view);
      SumStatusSnoc(init, a, Modified, view);
      SumStatusSnoc(init, a, Removed, view);
      SumStatusSnoc(init, a, Added, view);
      AddAnywhere(Sum(WithStatus(init, Modified), view), Sum(WithStatus(init, Removed), view), Sum(WithStatus(init, Added), view), view(a));
    }
  }

  lemma AddAnywhere<L>(a: multiset<L>, b: multiset<L>, c: multiset<L>, x: multiset<L>)
    ensures (a + x) + (b + multiset{}) + (c + multiset{}) == a + b + c + x
    ensures (a + multiset{}) + (b + x) + (c + multiset{}) == a + b + c + x
    ensures (a + multiset{}) + (b + multiset{}) + (c + x) == a + b + c + x
  {
  }

  lemma WithStatusSnoc(actions: seq<Action>, a: Action, st: Status)
    ensures WithStatus(actions + [a], st) == if a.status == st then WithStatus(actions, st) + [a] else WithStatus(actions, st)
  {
    assert (actions + [a])[..|actions|] == actions;
  }

  lemma {:induction false} LeftoverSubset<T, L>(xs: seq<T>, tag: T -> L, partners: multiset<L>)
    ensures forall x :: x in Leftover(xs, tag, partners) ==> x in xs
  {
    if xs != [] {
      LeftoverSubset(xs[..|xs| - 1], tag, partners);
    }
  }

  lemma {:induction false} MergedCount(removals: seq<Action>, injections: seq<Action>)
    ensures |Merged(removals, injections)| == |removals| - |Leftover(removals, ComponentOf, Bag(injections, ComponentOf))|
  {
    if removals != [] {
      var init, r := removals[..|removals| - 1], removals[|removals| - 1];
      MergedCount(init, injections);
      var k, partner := MergedStep(init, r, injections);
      var rest := Leftover(init, ComponentOf, Bag(injections, ComponentOf));
      InitLast(removals);
      if k < |Leftover(injections, ComponentOf, Bag(init, ComponentOf))| {
        assert |Merged(init + [r], injections)| == |Merged(init, injections)| + 1;
      } else {
        assert |Leftover(init + [r], ComponentOf, Bag(injections, ComponentOf))| == |rest| + 1;
      }
    }
  }

  lemma {:induction false} SumModified(actions: seq<Action>)
    requires forall a :: a in actions ==> a.status == Modified
    ensures |Sum(actions, ModifiedMark)| == |actions|
  {
    if actions != [] {
      SumModified(actions[..|actions| - 1]);
    }
  }

  /** Through pass 3 every view of the report is the sum over its four parts. */
  lemma SumPaired<L>(actions: seq<Action>, view: Action -> multiset<L>)
    ensures var rem, inj := WithStatus(actions, Removed), WithStatus(actions, Added);
            Sum(PairedByName(actions), view) ==
            Sum(WithStatus(actions, Modified), view) + Sum(Merged(rem, inj), view)
            + Sum(Leftover(rem, ComponentOf, Bag(inj, ComponentOf)), view)
            + Sum(Leftover(inj, ComponentOf, Bag(rem, ComponentOf)), view)
  {
    var rem, inj := WithStatus(actions, Removed), WithStatus(actions, Added);
    var kept, merged := WithStatus(actions, Modified), Merged(rem, inj);
    var rem', inj' := Leftover(rem, ComponentOf, Bag(inj, ComponentOf)), Leftover(inj, ComponentOf, Bag(rem, ComponentOf));
    if merged == [] {
      NothingMergedNothingPaired(rem, inj);
      SumByStatus(actions, view);
    } else {
      SumConcat(kept + merged + rem', inj', view);
      SumConcat(kept + merged, rem', view);
      SumConcat(kept, merged, view);
    }
  }

  lemma NothingMergedNothingPaired(rem: seq<Action>, inj: seq<Action>)
    requires Merged(rem, inj) == []
    ensures Leftover(rem, ComponentOf, Bag(inj, ComponentOf)) == rem
    ensures Leftover(inj, ComponentOf, Bag(rem, ComponentOf)) == inj
  {
    MergedCount(rem, inj);
    LeftoverSize(rem, inj, ComponentOf);
    LeftoverSize(inj, rem, ComponentOf);
    assert Bag(rem, ComponentOf) * Bag(inj, ComponentOf) == Bag(inj, ComponentOf) * Bag(rem, ComponentOf);
    FullLeftover(rem, ComponentOf, Bag(inj, ComponentOf));
    FullLeftover(inj, ComponentOf, Bag(rem, ComponentOf));
  }

  lemma {:induction false} FullLeftover<T, L>(xs: seq<T>, tag: T -> L, partners: multiset<L>)
    requires |Leftover(xs, tag, partners)| == |xs|
    ensures Leftover(xs, tag, partners) == xs
  {
    if xs != [] {
      FullLeftover(xs[..|xs| - 1], tag, partners);
    }
  }

  // ---------------------------------------------------------------- names after pass 3

  /** Pass 3 cancels names: what stays removed is the bag difference, and one modification replaces each common name. */
  lemma PairedNames(actions: seq<Action>)
    ensures Sum(PairedByName(actions), RemovedName) == Sum(actions, RemovedName) - Sum(actions, AddedName)
    ensures Sum(PairedByName(actions), AddedName) == Sum(actions, AddedName) - Sum(actions, RemovedName)
    ensures |Sum(PairedByName(actions), ModifiedMark)| ==
            |Sum(actions, ModifiedMark)| + |Sum(actions, RemovedName) * Sum(actions, AddedName)|
  {
    var rem, inj := WithStatus(actions, Removed), WithStatus(actions, Added);
    NamesOfStatus(actions);
    LeftoverBag(rem, ComponentOf, Bag(inj, ComponentOf));
    LeftoverBag(inj, ComponentOf, Bag(rem, ComponentOf));
    RemovedAfterPairing(actions);
    AddedAfterPairing(actions);
    ModifiedAfterPairing(actions);
    LeftoverSize(rem, inj, ComponentOf);
    MergedCount(rem, inj);
  }

  lemma NamesOfStatus(actions: seq<Action>)
    ensures Sum(actions, RemovedName) == Bag(WithStatus(actions, Removed), ComponentOf)
    ensures Sum(actions, AddedName) == Bag(WithStatus(actions, Added), ComponentOf)
  {
    SumByStatus(actions, RemovedName);
    SumOfNothing(WithStatus(actions, Modified), RemovedName);
    SumOfNothing(WithStatus(actions, Added), RemovedName);
    SumOfSingles(WithStatus(actions, Removed), RemovedName, ComponentOf);
    SumByStatus(actions, AddedName);
    SumOfNothing(WithStatus(actions, Modified), AddedName);
    SumOfNothing(WithStatus(actions, Removed), AddedName);
    SumOfSingles(WithStatus(actions, Added), AddedName, ComponentOf);
  }

  lemma RemovedAfterPairing(actions: seq<Action>)
    ensures var rem, inj := WithStatus(actions, Removed), WithStatus(actions, Added);
            Sum(PairedByName(actions), RemovedName) == Bag(Leftover(rem, ComponentOf, Bag(inj, ComponentOf)), ComponentOf)
  {
    var rem, inj := WithStatus(actions, Removed), WithStatus(actions, Added);
    var rem', inj' := Leftover(rem, ComponentOf, Bag(inj, ComponentOf)), Leftover(inj, ComponentOf, Bag(rem, ComponentOf));
    LeftoverSubset(rem, ComponentOf, Bag(inj, ComponentOf));
    LeftoverSubset(inj, ComponentOf, Bag(rem, ComponentOf));
    SumPaired(actions, RemovedName);
    SumOfNothing(WithStatus(actions, Modified), RemovedName);
    SumOfNothing(Merged(rem, inj), RemovedName);
    SumOfNothing(inj', RemovedName);
    SumOfSingles(rem', RemovedName, ComponentOf);
  }

  lemma AddedAfterPairing(actions: seq<Action>)
    ensures var rem, inj := WithStatus(actions, Removed), WithStatus(actions, Added);
            Sum(PairedByName(actions), AddedName) == Bag(Leftover(inj, ComponentOf, Bag(rem, ComponentOf)), ComponentOf)
  {
    var rem, inj := WithStatus(actions, Removed), WithStatus(actions, Added);
    var rem', inj' := Leftover(rem, ComponentOf, Bag(inj, ComponentOf)), Leftover(inj, ComponentOf, Bag(rem, ComponentOf));
    LeftoverSubset(rem, ComponentOf, Bag(inj, ComponentOf));
    LeftoverSubset(inj, ComponentOf, Bag(rem, ComponentOf));
    SumPaired(actions, AddedName);
    SumOfNothing(WithStatus(actions, Modified), AddedName);
    SumOfNothing(Merged(rem, inj), AddedName);
    SumOfNothing(rem', AddedName);
    SumOfSingles(inj', AddedName, ComponentOf);
  }

  lemma ModifiedAfterPairing(actions: seq<Action>)
    ensures |Sum(PairedByName(actions), ModifiedMark)| ==
            |Sum(actions, ModifiedMark)| + |Merged(WithStatus(actions, Removed), WithStatus(actions, Added))|
  {
    var rem, inj := WithStatus(actions, Removed), WithStatus(actions, Added);
    var rem', inj' := Leftover(rem, ComponentOf, Bag(inj, ComponentOf)), Leftover(inj, ComponentOf, Bag(rem, ComponentOf));
    LeftoverSubset(rem, ComponentOf, Bag(inj, ComponentOf));
    LeftoverSubset(inj, ComponentOf, Bag(rem, ComponentOf));
    SumPaired(actions, ModifiedMark);
    SumOfNothing(rem', ModifiedMark);
    SumOfNothing(inj', ModifiedMark);
    SumByStatus(actions, ModifiedMark);
    SumOfNothing(rem, ModifiedMark);
    SumOfNothing(inj, ModifiedMark);
    SumModified(Merged(rem, inj));
  }

  /** After the name pass no name is both removed and added. */
  lemma NoNameBothRemovedAndAdded(original: Document, submitted: Document)
    ensures Sum(Report(original, submitted), RemovedName) !! Sum(Report(original, submitted), AddedName)
  {
    PairedNames(KeyedActions(original, submitted));
  }

  // ---------------------------------------------------------------- symmetry

  lemma {:induction false} SumOfFlatMap<T, U, L>(xs: seq<T>, f: T -> seq<U>, view: U -> multiset<L>)
    ensures Sum(FlatMap(xs, f), view) == Sum(xs, AtKey(f, view))
  {
    if xs != [] {
      var init, x := xs[..|xs| - 1], xs[|xs| - 1];
      SumOfFlatMap(init, f, view);
      SumConcat(FlatMap(init, f), f(x), view);
    }
  }

  lemma SumPairUp<L>(uo: seq<Entry>, us: seq<Entry>, view: Action -> multiset<L>)
    ensures var m := Min(|uo|, |us|);
            Sum(PairUp(uo, us), view) ==
            Sum(Pairs(uo, us), view) + Sum(Map(uo[m..], RemovedOf), view) + Sum(Map(us[m..], AddedOf), view)
  {
    var m := Min(|uo|, |us|);
    var rem, add := Map(uo[m..], RemovedOf), Map(us[m..], AddedOf);
    assert PairUp(uo, us) == Pairs(uo, us) + rem + add;
    SumConcat(Pairs(uo, us) + rem, add, view);
    SumConcat(Pairs(uo, us), rem, view);
  }

  function NameOf(e: Entry): string { e.name }

  lemma PairUpRemoved(uo: seq<Entry>, us: seq<Entry>)
    ensures Sum(PairUp(uo, us), RemovedName) == Bag(uo[Min(|uo|, |us|)..], NameOf)
  {
    var m := Min(|uo|, |us|);
    SumPairUp(uo, us, RemovedName);
    SumOfNothing(Pairs(uo, us), RemovedName);
    SumMapSingles(uo[m..], RemovedOf, RemovedName, NameOf);
    SumMapNothing(us[m..], AddedOf, RemovedName);
  }

  lemma PairUpAdded(uo: seq<Entry>, us: seq<Entry>)
    ensures Sum(PairUp(uo, us), AddedName) == Bag(us[Min(|uo|, |us|)..], NameOf)
  {
    var m := Min(|uo|, |us|);
    SumPairUp(uo, us, AddedName);
    SumOfNothing(Pairs(uo, us), AddedName);
    SumMapNothing(uo[m..], RemovedOf, AddedName);
    SumMapSingles(us[m..], AddedOf, AddedName, NameOf);
  }

  lemma PairUpModified(uo: seq<Entry>, us: seq<Entry>)
    ensures |Sum(PairUp(uo, us), ModifiedMark)| == Min(|uo|, |us|)
  {
    var m := Min(|uo|, |us|);
    SumPairUp(uo, us, ModifiedMark);
    SumModified(Pairs(uo, us));
    SumMapNothing(uo[m..], RemovedOf, ModifiedMark);
    SumMapNothing(us[m..], AddedOf, ModifiedMark);
  }

  lemma {:induction false} UnitBags(a: multiset<()>, b: multiset<()>)
    requires |a| == |b|
    ensures a == b
  {
    UnitCount(a);
    UnitCount(b);
    forall u: () ensures a[u] == b[u] {
      assert u == ();
    }
  }

  lemma UnitCount(a: multiset<()>)
    ensures |a| == a[()]
  {
    var rest := a[() := 0];
    assert forall u: () :: rest[u] == 0 by {
      forall u: () ensures rest[u] == 0 { assert u == (); }
    }
    assert rest == multiset{};
    assert a == multiset{}[() := a[()]];
  }

  lemma GroupSymmetry(os: seq<Entry>, ss: seq<Entry>)
    ensures Sum(GroupActions(os, ss), RemovedName) == Sum(GroupActions(ss, os), AddedName)
    ensures Sum(GroupActions(os, ss), AddedName) == Sum(GroupActions(ss, os), RemovedName)
    ensures Sum(GroupActions(os, ss), ModifiedMark) == Sum(GroupActions(ss, os), ModifiedMark)
  {
    var uo, us := Leftover(os, VersionOf, Bag(ss, VersionOf)), Leftover(ss, VersionOf, Bag(os, VersionOf));
    PairUpRemoved(uo, us);
    PairUpAdded(us, uo);
    PairUpAdded(uo, us);
    PairUpRemoved(us, uo);
    PairUpModified(uo, us);
    PairUpModified(us, uo);
    UnitBags(Sum(GroupActions(os, ss), ModifiedMark), Sum(GroupActions(ss, os), ModifiedMark));
  }

  ghost function AtKey<T, U, L>(groups: T -> seq<U>, view: U -> multiset<L>): T -> multiset<L> {
    k => Sum(groups(k), view)
  }

  lemma MirroredSums<L>(keys: seq<string>, keys': seq<string>, f: string -> seq<Action>, g: string -> seq<Action>,
                        view: Action -> multiset<L>, mirror: Action -> multiset<L>)
    requires multiset(keys) == multiset(keys')
    requires forall k :: Sum(f(k), view) == Sum(g(k), mirror)
    ensures Sum(FlatMap(keys, f), view) == Sum(FlatMap(keys', g), mirror)
  {
    SumOfFlatMap(keys, f, view);
    SumOfFlatMap(keys', g, mirror);
    SumPermuted(keys, keys', AtKey(f, view));
    SumCongruent(keys', AtKey(f, view), AtKey(g, mirror));
  }

  lemma KeyedSymmetry<L>(original: Document, submitted: Document, view: Action -> multiset<L>, mirror: Action -> multiset<L>)
    requires forall os, ss :: Sum(GroupActions(os, ss), view) == Sum(GroupActions(ss, os), mirror)
    ensures Sum(KeyedActions(original, submitted), view) == Sum(KeyedActions(submitted, original), mirror)
  {
    AllKeysAreAll(original, submitted);
    AllKeysAreAll(submitted, original);
    DistinctPermutation(AllKeys(original, submitted), AllKeys(submitted, original));
    var f, g := GroupsOf(original, submitted), GroupsOf(submitted, original);
    forall k ensures Sum(f(k), view) == Sum(g(k), mirror) {
      assert f(k) == GroupActions(EntriesAt(original, k), EntriesAt(submitted, k));
    }
    MirroredSums(AllKeys(original, submitted), AllKeys(submitted, original), f, g, view, mirror);
  }

  /** Swapping the two documents swaps removals and additions name by name and keeps the number of modifications. */
  lemma SwappingDocuments(original: Document, submitted: Document)
    ensures Sum(Report(original, submitted), RemovedName) == Sum(Report(submitted, original), AddedName)
    ensures Sum(Report(original, submitted), AddedName) == Sum(Report(submitted, original), RemovedName)
    ensures |Sum(Report(original, submitted), ModifiedMark)| == |Sum(Report(submitted, original), ModifiedMark)|
  {
    forall os, ss ensures Sum(GroupActions(os, ss), RemovedName) == Sum(GroupActions(ss, os), AddedName)
                       && Sum(GroupActions(os, ss), AddedName) == Sum(GroupActions(ss, os), RemovedName)
                       && Sum(GroupActions(os, ss), ModifiedMark) == Sum(GroupActions(ss, os), ModifiedMark) {
      GroupSymmetry(os, ss);
    }
    KeyedSymmetry(original, submitted, RemovedName, AddedName);
    KeyedSymmetry(original, submitted, AddedName, RemovedName);
    KeyedSymmetry(original, submitted, ModifiedMark, ModifiedMark);
    var a, b := KeyedActions(original, submitted), KeyedActions(submitted, original);
    PairedNames(a);
    PairedNames(b);
    assert Sum(a, RemovedName) * Sum(a, AddedName) == Sum(b, RemovedName) * Sum(b, AddedName);
  }

  // ---------------------------------------------------------------- conservation

  function MatchedAt(original: Document, submitted: Document): string -> seq<Entry> {
    k => Matched(EntriesAt(original, k), VersionOf, Bag(EntriesAt(submitted, k), VersionOf))
  }

  /** The original entries that found an equal version under their key. */
  function MatchedEntries(original: Document, submitted: Document): seq<Entry> {
    FlatMap(AllKeys(original, submitted), MatchedAt(original, submitted))
  }

  function Itself(e: Entry): Entry { e }

  lemma MapItself(es: seq<Entry>)
    ensures Map(es, Itself) == es
  {
    forall i | 0 <= i < |es| ensures Map(es, Itself)[i] == es[i] {
      assert Itself(es[i]) == es[i];
    }
  }

  lemma PairSides(uo: seq<Entry>, us: seq<Entry>)
    ensures Sum(Pairs(uo, us), OriginalSide) == multiset(uo[..Min(|uo|, |us|)])
    ensures Sum(Pairs(uo, us), SubmittedSide) == Bag(us[..Min(|uo|, |us|)], VersionOf)
  {
    var pairs := Pairs(uo, us);
    var uo', us' := uo[..|pairs|], Map(us[..|pairs|], VersionOf);
    forall i | 0 <= i < |pairs| ensures OriginalSide(pairs[i]) == multiset{uo'[i]} && SubmittedSide(pairs[i]) == multiset{us'[i]} {
      assert pairs[i] == ModifiedPair(uo[i], us[i]) && us'[i] == VersionOf(us[i]);
    }
    SumTagged(pairs, OriginalSide, uo');
    SumTagged(pairs, SubmittedSide, us');
  }

  lemma PairUpOriginals(uo: seq<Entry>, us: seq<Entry>)
    ensures Sum(PairUp(uo, us), OriginalSide) == multiset(uo)
  {
    var m := Min(|uo|, |us|);
    assert multiset(uo) == multiset(uo[..m]) + multiset(uo[m..]) by {
      assert uo == uo[..m] + uo[m..];
    }
    assert Sum(Map(uo[m..], RemovedOf), OriginalSide) == multiset(uo[m..]) by {
      SumMapSingles(uo[m..], RemovedOf, OriginalSide, Itself);
      MapItself(uo[m..]);
    }
    assert Sum(Map(us[m..], AddedOf), OriginalSide) == multiset{} by {
      SumMapNothing(us[m..], AddedOf, OriginalSide);
    }
    assert Sum(Pairs(uo, us), OriginalSide) == multiset(uo[..m]) by {
      PairSides(uo, us);
    }
    SumPairUp(uo, us, OriginalSide);
  }

  lemma PairUpSubmissions(uo: seq<Entry>, us: seq<Entry>)
    ensures Sum(PairUp(uo, us), SubmittedSide) == Bag(us, VersionOf)
  {
    var m := Min(|uo|, |us|);
    BagSplit(us, m);
    assert Sum(Map(uo[m..], RemovedOf), SubmittedSide) == multiset{} by {
      SumMapNothing(uo[m..], RemovedOf, SubmittedSide);
    }
    assert Sum(Map(us[m..], AddedOf), SubmittedSide) == multiset(Map(us[m..], VersionOf)) by {
      SumMapSingles(us[m..], AddedOf, SubmittedSide, VersionOf);
    }
    assert Sum(Pairs(uo, us), SubmittedSide) == Bag(us[..m], VersionOf) by {
      PairSides(uo, us);
    }
    SumPairUp(uo, us, SubmittedSide);
  }

  lemma BagSplit(us: seq<Entry>, m: nat)
    requires m <= |us|
    ensures Bag(us, VersionOf) == Bag(us[..m], VersionOf) + multiset(Map(us[m..], VersionOf))
  {
    assert us == us[..m] + us[m..];
    BagAppend(us[..m], us[m..], VersionOf);
  }

  ghost function Single(e: Entry): multiset<Entry> { multiset{e} }

  ghost function VersionMark(e: Entry): multiset<Option<string>> { multiset{e.version} }

  lemma SumIsMultiset(es: seq<Entry>)
    ensures Sum(es, Single) == multiset(es)
    ensures Sum(es, VersionMark) == Bag(es, VersionOf)
  {
    SumOfSingles(es, Single, Itself);
    MapItself(es);
    SumOfSingles(es, VersionMark, VersionOf);
  }

  lemma GroupConserves(os: seq<Entry>, ss: seq<Entry>)
    ensures var matched := Matched(os, VersionOf, Bag(ss, VersionOf));
            && multiset(os) == multiset(matched) + Sum(GroupActions(os, ss), OriginalSide)
            && Bag(ss, VersionOf) == Bag(matched, VersionOf) + Sum(GroupActions(os, ss), SubmittedSide)
  {
    var x, y := Bag(os, VersionOf), Bag(ss, VersionOf);
    MatchedBag(os, VersionOf, y);
    LeftoverBag(ss, VersionOf, x);
    PairUpOriginals(Leftover(os, VersionOf, y), Leftover(ss, VersionOf, x));
    PairUpSubmissions(Leftover(os, VersionOf, y), Leftover(ss, VersionOf, x));
    assert y == x * y + (y - x);
  }

  /** The groups under any duplicate-free list of keys that misses none add up to the document. */
  lemma {:induction false} GroupsCover<L>(doc: Document, keys: seq<string>, view: Entry -> multiset<L>)
    requires Distinct(keys)
    requires forall k :: EntriesAt(doc, k) != [] ==> k in keys
    ensures Sum(keys, AtKey(EntriesOf(doc), view)) == Sum(Entries(doc), view)
  {
    if doc == [] {
      SumOfNothing(keys, AtKey(EntriesOf(doc), view));
    } else {
      var init, c := doc[..|doc| - 1], doc[|doc| - 1];
      forall k | EntriesAt(init, k) != [] ensures k in keys {
        assert EntriesAt(doc, k) != [];
      }
      GroupsCover(init, keys, view);
      var before, after := AtKey(EntriesOf(init), view), AtKey(EntriesOf(doc), view);
      if c.Component? {
        var key := StableKey(c);
        assert EntriesAt(doc, key) != [];
        var i :| 0 <= i < |keys| && keys[i] == key;
        SumSnoc(EntriesAt(init, key), ToEntry(c), view);
        SumSnoc(Entries(init), ToEntry(c), view);
        SumBump(keys, i, before, after, view(ToEntry(c)));
      } else {
        SumCongruent(keys, before, after);
      }
    }
  }

  /** Two sums that differ at one key differ by what is added there. */
  lemma {:induction false} SumBump<T, L>(keys: seq<T>, i: nat, f: T -> multiset<L>, g: T -> multiset<L>, extra: multiset<L>)
    requires i < |keys| && Distinct(keys)
    requires g(keys[i]) == f(keys[i]) + extra
    requires forall k :: k in keys && k != keys[i] ==> g(k) == f(k)
    ensures Sum(keys, g) == Sum(keys, f) + extra
  {
    var init := keys[..|keys| - 1];
    if i == |keys| - 1 {
      SumCongruent(init, f, g);
    } else {
      SumBump(init, i, f, g, extra);
    }
  }

  lemma {:induction false} SumAdds<T, L>(xs: seq<T>, f: T -> multiset<L>, g: T -> multiset<L>, h: T -> multiset<L>)
    requires forall x :: x in xs ==> f(x) == g(x) + h(x)
    ensures Sum(xs, f) == Sum(xs, g) + Sum(xs, h)
  {
    if xs != [] {
      SumAdds(xs[..|xs| - 1], f, g, h);
    }
  }

  function EntriesOf(doc: Document): string -> seq<Entry> {
    k => EntriesAt(doc, k)
  }

  /** Conservation over a list of keys follows from conservation at each of them. */
  lemma KeyedSums<L>(doc: Document, keys: seq<string>, view: Entry -> multiset<L>, matched: string -> seq<Entry>,
                     groups: string -> seq<Action>, side: Action -> multiset<L>)
    requires Distinct(keys)
    requires forall k :: EntriesAt(doc, k) != [] ==> k in keys
    requires forall k :: Sum(EntriesAt(doc, k), view) == Sum(matched(k), view) + Sum(groups(k), side)
    ensures Sum(Entries(doc), view) == Sum(FlatMap(keys, matched), view) + Sum(FlatMap(keys, groups), side)
  {
    GroupsCover(doc, keys, view);
    SumAdds(keys, AtKey(EntriesOf(doc), view), AtKey(matched, view), AtKey(groups, side));
    SumOfFlatMap(keys, matched, view);
    SumOfFlatMap(keys, groups, side);
  }

  lemma OriginalsConserved(original: Document, submitted: Document)
    ensures multiset(Entries(original)) == multiset(MatchedEntries(original, submitted)) + Sum(KeyedActions(original, submitted), OriginalSide)
  {
    var groups, matched := GroupsOf(original, submitted), MatchedAt(original, submitted);
    AllKeysAreAll(original, submitted);
    forall k ensures Sum(EntriesAt(original, k), Single) == Sum(matched(k), Single) + Sum(groups(k), OriginalSide) {
      GroupConserves(EntriesAt(original, k), EntriesAt(submitted, k));
      SumIsMultiset(EntriesAt(original, k));
      SumIsMultiset(matched(k));
    }
    KeyedSums(original, AllKeys(original, submitted), Single, matched, groups, OriginalSide);
    SumIsMultiset(Entries(original));
    SumIsMultiset(MatchedEntries(original, submitted));
  }

  lemma SubmissionsConserved(original: Document, submitted: Document)
    ensures Bag(Entries(submitted), VersionOf) ==
            Bag(MatchedEntries(original, submitted), VersionOf) + Sum(KeyedActions(original, submitted), SubmittedSide)
  {
    var groups, matched := GroupsOf(original, submitted), MatchedAt(original, submitted);
    AllKeysAreAll(original, submitted);
    forall k ensures Sum(EntriesAt(submitted, k), VersionMark) == Sum(matched(k), VersionMark) + Sum(groups(k), SubmittedSide) {
      GroupConserves(EntriesAt(original, k), EntriesAt(submitted, k));
      SumIsMultiset(EntriesAt(submitted, k));
      SumIsMultiset(matched(k));
    }
    KeyedSums(submitted, AllKeys(original, submitted), VersionMark, matched, groups, SubmittedSide);
    SumIsMultiset(Entries(submitted));
    SumIsMultiset(MatchedEntries(original, submitted));
  }

  lemma {:induction false} MergedOriginals(removals: seq<Action>, injections: seq<Action>)
    requires forall a :: a in removals ==> a.status == Removed
    ensures Sum(removals, OriginalSide) ==
            Sum(Merged(removals, injections), OriginalSide)
            + Sum(Leftover(removals, ComponentOf, Bag(injections, ComponentOf)), OriginalSide)
  {
    if removals != [] {
      var init, r := removals[..|removals| - 1], removals[|removals| - 1];
      MergedOriginals(init, injections);
      MergedOriginalsStep(init, r, injections);
      SumSnoc(init, r, OriginalSide);
      assert removals == init + [r];
    }
  }

  /** One more removal adds its original side either to the merged part or to the rest. */
  lemma MergedOriginalsStep(init: seq<Action>, r: Action, injections: seq<Action>)
    requires r.status == Removed
    ensures Sum(Merged(init + [r], injections), OriginalSide)
            + Sum(Leftover(init + [r], ComponentOf, Bag(injections, ComponentOf)), OriginalSide)
            == Sum(Merged(init, injections), OriginalSide)
               + Sum(Leftover(init, ComponentOf, Bag(injections, ComponentOf)), OriginalSide) + OriginalSide(r)
  {
    var k, partner := MergedStep(init, r, injections);
    var merged, rest := Merged(init, injections), Leftover(init, ComponentOf, Bag(injections, ComponentOf));
    AddLeft(Sum(merged, OriginalSide), Sum(rest, OriginalSide), OriginalSide(r));
    if k < |Leftover(injections, ComponentOf, Bag(init, ComponentOf))| {
      SumSnoc(merged, Merge(r, partner), OriginalSide);
    } else {
      SumSnoc(rest, r, OriginalSide);
    }
  }

  lemma AddLeft<L>(a: multiset<L>, b: multiset<L>, x: multiset<L>)
    ensures (a + x) + b == a + b + x
    ensures a + (b + x) == a + b + x
  {
  }

  /** The effect of one more removal on the merged part and on both rests. */
  lemma MergedStep(init: seq<Action>, r: Action, injections: seq<Action>) returns (k: nat, partner: Action)
    ensures var merged, rest := Merged(init, injections), Leftover(init, ComponentOf, Bag(injections, ComponentOf));
            var pool := Leftover(injections, ComponentOf, Bag(init, ComponentOf));
            && (k < |pool| ==>
                  && partner == pool[k]
                  && Merged(init + [r], injections) == merged + [Merge(r, partner)]
                  && Leftover(init + [r], ComponentOf, Bag(injections, ComponentOf)) == rest
                  && Leftover(injections, ComponentOf, Bag(init + [r], ComponentOf)) == RemoveAt(pool, k))
            && (k >= |pool| ==>
                  && Merged(init + [r], injections) == merged
                  && Leftover(init + [r], ComponentOf, Bag(injections, ComponentOf)) == rest + [r]
                  && Leftover(injections, ComponentOf, Bag(init + [r], ComponentOf)) == pool)
  {
    var pool := Leftover(injections, ComponentOf, Bag(init, ComponentOf));
    k := FirstIndex(pool, ComponentOf, r.component);
    partner := if k < |pool| then pool[k] else r;
    GreedyStep(init, r, injections, ComponentOf);
    MergedSnoc(init, r, injections);
  }

  lemma SumRemoveAt<T, L>(xs: seq<T>, k: nat, f: T -> multiset<L>)
    requires k < |xs|
    ensures Sum(xs, f) == Sum(RemoveAt(xs, k), f) + f(xs[k])
  {
    SplitAround(xs, k);
    SumMiddle(xs[..k], xs[k], xs[k + 1..], f);
  }

  lemma {:induction false} MergedSubmissions(removals: seq<Action>, injections: seq<Action>)
    requires forall a :: a in injections ==> a.status == Added
    ensures Sum(injections, SubmittedSide) ==
            Sum(Merged(removals, injections), SubmittedSide)
            + Sum(Leftover(injections, ComponentOf, Bag(removals, ComponentOf)), SubmittedSide)
  {
    if removals == [] {
      assert Map<Action, string>([], ComponentOf) == [];
      LeftoverOfNothing(injections, ComponentOf);
    } else {
      var init, r := removals[..|removals| - 1], removals[|removals| - 1];
      MergedSubmissions(init, injections);
      MergedSubmissionsStep(init, r, injections);
      assert removals == init + [r];
    }
  }

  /** One more removal moves the submitted side of its partner from the pool to the merged part. */
  lemma MergedSubmissionsStep(init: seq<Action>, r: Action, injections: seq<Action>)
    requires forall a :: a in injections ==> a.status == Added
    ensures Sum(Merged(init + [r], injections), SubmittedSide)
            + Sum(Leftover(injections, ComponentOf, Bag(init + [r], ComponentOf)), SubmittedSide)
            == Sum(Merged(init, injections), SubmittedSide)
               + Sum(Leftover(injections, ComponentOf, Bag(init, ComponentOf)), SubmittedSide)
  {
    var k, partner := MergedStep(init, r, injections);
    var pool := Leftover(injections, ComponentOf, Bag(init, ComponentOf));
    LeftoverSubset(injections, ComponentOf, Bag(init, ComponentOf));
    if k < |pool| {
      assert partner in injections;
      SumRemoveAt(pool, k, SubmittedSide);
      SumSnoc(Merged(init, injections), Merge(r, partner), SubmittedSide);
    }
  }

  lemma PairingConserves(actions: seq<Action>)
    ensures Sum(PairedByName(actions), OriginalSide) == Sum(actions, OriginalSide)
    ensures Sum(PairedByName(actions), SubmittedSide) == Sum(actions, SubmittedSide)
  {
    var rem, inj := WithStatus(actions, Removed), WithStatus(actions, Added);
    NamesLeft(rem, inj);
    MergedOriginals(rem, inj);
    SumOfNothing(inj, OriginalSide);
    PairingBalances(actions, OriginalSide);
    MergedSubmissions(rem, inj);
    SumOfNothing(rem, SubmittedSide);
    PairingBalances(actions, SubmittedSide);
  }

  /** The unpaired removals and injections are still removals and injections. */
  lemma NamesLeft(rem: seq<Action>, inj: seq<Action>)
    requires forall a :: a in rem ==> a.status == Removed
    requires forall a :: a in inj ==> a.status == Added
    ensures Sum(Leftover(inj, ComponentOf, Bag(rem, ComponentOf)), OriginalSide) == multiset{}
    ensures Sum(Leftover(rem, ComponentOf, Bag(inj, ComponentOf)), SubmittedSide) == multiset{}
  {
    LeftoverSubset(rem, ComponentOf, Bag(inj, ComponentOf));
    LeftoverSubset(inj, ComponentOf, Bag(rem, ComponentOf));
    SumOfNothing(Leftover(inj, ComponentOf, Bag(rem, ComponentOf)), OriginalSide);
    SumOfNothing(Leftover(rem, ComponentOf, Bag(inj, ComponentOf)), SubmittedSide);
  }

  /** Pairing keeps a view that splits on both sides together as the matching does. */
  lemma PairingBalances<L>(actions: seq<Action>, view: Action -> multiset<L>)
    requires var rem, inj := WithStatus(actions, Removed), WithStatus(actions, Added);
             Sum(rem, view) + Sum(inj, view) == Sum(Merged(rem, inj), view)
                + Sum(Leftover(rem, ComponentOf, Bag(inj, ComponentOf)), view)
                + Sum(Leftover(inj, ComponentOf, Bag(rem, ComponentOf)), view)
    ensures Sum(PairedByName(actions), view) == Sum(actions, view)
  {
    var rem, inj := WithStatus(actions, Removed), WithStatus(actions, Added);
    var rem', inj' := Leftover(rem, ComponentOf, Bag(inj, ComponentOf)), Leftover(inj, ComponentOf, Bag(rem, ComponentOf));
    SumByStatus(actions, view);
    SumPaired(actions, view);
    SameBeyond(Sum(WithStatus(actions, Modified), view), Sum(rem, view), Sum(inj, view),
               Sum(Merged(rem, inj), view), Sum(rem', view), Sum(inj', view));
  }

  lemma SameBeyond<L>(kept: multiset<L>, a: multiset<L>, b: multiset<L>, x: multiset<L>, y: multiset<L>, z: multiset<L>)
    requires a + b == x + y + z
    ensures kept + a + b == kept + x + y + z
  {
    assert kept + a + b == kept + (a + b);
    assert kept + x + y + z == kept + (x + y + z);
  }

  /**
   Nothing is lost and nothing is invented: every original (name, version) is matched, removed or modified, and every
   submitted version is matched, added or the new side of a modification, with multiplicity.
   */
  lemma ReportConserves(original: Document, submitted: Document)
    ensures multiset(Entries(original)) == multiset(MatchedEntries(original, submitted)) + Sum(Report(original, submitted), OriginalSide)
    ensures Bag(Entries(submitted), VersionOf) ==
            Bag(MatchedEntries(original, submitted), VersionOf) + Sum(Report(original, submitted), SubmittedSide)
  {
    OriginalsConserved(original, submitted);
    SubmissionsConserved(original, submitted);
    PairingConserves(KeyedActions(original, submitted));
  }

  lemma KeysOfSingle(c: RawItem)
    requires c.Component?
    ensures KeysOf([c]) == [StableKey(c)]
    ensures forall k :: EntriesAt([c], k) == if k == StableKey(c) then [ToEntry(c)] else []
  {
    assert [c][..0] == [];
  }

  lemma KeyedActionsOfSingles(c: RawItem, d: RawItem)
    requires c.Component? && d.Component? && StableKey(c) != StableKey(d)
    ensures KeyedActions([c], [d]) == [RemovedOf(ToEntry(c)), AddedOf(ToEntry(d))]
  {
    AllKeysOfSingles(c, d);
    SingleGroups(c, d);
    FlatMapTwo(StableKey(c), StableKey(d), GroupsOf([c], [d]));
  }

  lemma SingleGroups(c: RawItem, d: RawItem)
    requires c.Component? && d.Component? && StableKey(c) != StableKey(d)
    ensures GroupsOf([c], [d])(StableKey(c)) == [RemovedOf(ToEntry(c))]
    ensures GroupsOf([c], [d])(StableKey(d)) == [AddedOf(ToEntry(d))]
  {
    KeysOfSingle(c);
    KeysOfSingle(d);
    GroupOfOneSide([ToEntry(c)]);
    GroupOfOneSide([ToEntry(d)]);
    assert Map([ToEntry(c)], RemovedOf) == [RemovedOf(ToEntry(c))];
    assert Map([ToEntry(d)], AddedOf) == [AddedOf(ToEntry(d))];
  }

  lemma FlatMapTwo<T, U>(x: T, y: T, f: T -> seq<U>)
    ensures FlatMap([x] + [y], f) == f(x) + f(y)
  {
    FlatMapSnoc([x], y, f);
    FlatMapSnoc([], x, f);
    assert [] + [x] == [x];
    assert [] + f(x) == f(x);
  }

  lemma AllKeysOfSingles(c: RawItem, d: RawItem)
    requires c.Component? && d.Component? && StableKey(c) != StableKey(d)
    ensures AllKeys([c], [d]) == [StableKey(c)] + [StableKey(d)]
  {
    KeysOfSingle(c);
    KeysOfSingle(d);
    assert [StableKey(d)][..0] == [];
    assert Except([StableKey(d)], [StableKey(c)]) == [StableKey(d)];
  }

  lemma SingleActions(r: Action, i: Action, st: Status)
    requires r.status == Removed && i.status == Added
    ensures WithStatus([r, i], st) == if st == Removed then [r] else if st == Added then [i] else []
  {
    WithStatusSnoc([], r, st);
    assert [] + [r] == [r];
    WithStatusSnoc([r], i, st);
    assert [r] + [i] == [r, i];
  }

  lemma MatchOfOneEach<T, L>(x: T, y: T, tag: T -> L)
    requires tag(x) == tag(y)
    ensures Leftover([x], tag, Bag([y], tag)) == []
    ensures Leftover([y], tag, Bag([], tag)) == [y]
  {
    assert Map<T, L>([], tag) == [];
    LeftoverOfNothing([y], tag);
    assert Map([x], tag) == [tag(x)] && Map([y], tag) == [tag(y)];
    LeftoverBag([x], tag, Bag([y], tag));
    BagSize(Leftover([x], tag, Bag([y], tag)), tag);
  }

  lemma MergedOfOneEach(r: Action, i: Action)
    requires r.status == Removed && i.status == Added && r.component == i.component
    ensures Merged([r], [i]) == [Merge(r, i)]
  {
    var k, partner := MergedStep([], r, [i]);
    MatchOfOneEach(r, i, ComponentOf);
    assert [] + [r] == [r];
    assert [] + [Merge(r, i)] == [Merge(r, i)];
    assert Leftover<Action, string>([], ComponentOf, Bag([i], ComponentOf)) == [];
  }

  lemma PairOfOneEach(r: Action, i: Action)
    requires r.status == Removed && i.status == Added && r.component == i.component
    ensures PairedByName([r, i]) == [Merge(r, i)]
  {
    SingleActions(r, i, Removed);
    SingleActions(r, i, Added);
    SingleActions(r, i, Modified);
    MatchOfOneEach(r, i, ComponentOf);
    MatchOfOneEach(i, r, ComponentOf);
    MergedOfOneEach(r, i);
    PairedByNameIs([r, i], [r], [i]);
    NothingElse([Merge(r, i)]);
  }

  lemma NothingElse<T>(xs: seq<T>)
    ensures [] + xs + [] + [] == xs
  {
  }

  lemma PairedByNameIs(actions: seq<Action>, removals: seq<Action>, injections: seq<Action>)
    requires WithStatus(actions, Removed) == removals && WithStatus(actions, Added) == injections
    requires Merged(removals, injections) != []
    ensures PairedByName(actions) == WithStatus(actions, Modified) + Merged(removals, injections)
                                     + Leftover(removals, ComponentOf, Bag(injections, ComponentOf))
                                     + Leftover(injections, ComponentOf, Bag(removals, ComponentOf))
  {
  }

  // ---------------------------------------------------------------- when a modification differs

  predicate VersionsDiffer(a: Action) {
    a.originalVersion != a.modifiedVersion
  }

  lemma {:induction false} FlatMapHas<T, U>(xs: seq<T>, f: T -> seq<U>, u: U)
    ensures u in FlatMap(xs, f) <==> exists x :: x in xs && u in f(x)
  {
    if xs != [] {
      var init, x := xs[..|xs| - 1], xs[|xs| - 1];
      InitLast(xs);
      FlatMapHas(init, f, u);
      if u in f(x) {
        assert x in xs;
      }
    }
  }

  lemma {:induction false} WithStatusHas(actions: seq<Action>, st: Status, a: Action)
    ensures a in WithStatus(actions, st) <==> a in actions && a.status == st
  {
    if actions != [] {
      InitLast(actions);
      WithStatusHas(actions[..|actions| - 1], st, a);
    }
  }

  lemma {:induction false} EntriesAtHas(doc: Document, key: string, e: Entry) returns (i: nat)
    requires e in EntriesAt(doc, key)
    ensures i < |doc| && doc[i].Component? && StableKey(doc[i]) == key && ToEntry(doc[i]) == e
  {
    var n := |doc| - 1;
    if doc[n].Component? && StableKey(doc[n]) == key && ToEntry(doc[n]) == e {
      i := n;
    } else {
      i := EntriesAtHas(doc[..n], key, e);
    }
  }

  /** One group reports removals or additions, never both; they are its originals and its submissions. */
  lemma GroupIsOneSided(os: seq<Entry>, ss: seq<Entry>, a: Action)
    requires a in GroupActions(os, ss)
    ensures a.status == Modified ==> VersionsDiffer(a)
    ensures a.status == Removed ==> (exists e :: e in os && a == RemovedOf(e)) && forall b :: b in GroupActions(os, ss) ==> b.status != Added
    ensures a.status == Added ==> (exists e :: e in ss && a == AddedOf(e)) && forall b :: b in GroupActions(os, ss) ==> b.status != Removed
  {
    var uo, us := Leftover(os, VersionOf, Bag(ss, VersionOf)), Leftover(ss, VersionOf, Bag(os, VersionOf));
    LeftoverSubset(os, VersionOf, Bag(ss, VersionOf));
    LeftoverSubset(ss, VersionOf, Bag(os, VersionOf));
    var i :| 0 <= i < |GroupActions(os, ss)| && GroupActions(os, ss)[i] == a;
    GroupModificationsDiffer(os, ss, i);
    PairUpIsOneSided(uo, us, a);
  }

  lemma PairUpIsOneSided(uo: seq<Entry>, us: seq<Entry>, a: Action)
    requires a in PairUp(uo, us)
    ensures a.status == Removed ==> (exists e :: e in uo && a == RemovedOf(e)) && |us| < |uo|
    ensures a.status == Added ==> (exists e :: e in us && a == AddedOf(e)) && |uo| < |us|
    ensures |us| < |uo| ==> forall b :: b in PairUp(uo, us) ==> b.status != Added
    ensures |uo| < |us| ==> forall b :: b in PairUp(uo, us) ==> b.status != Removed
  {
    forall b | b in PairUp(uo, us)
      ensures b.status == Removed ==> (exists e :: e in uo && b == RemovedOf(e)) && |us| < |uo|
      ensures b.status == Added ==> (exists e :: e in us && b == AddedOf(e)) && |uo| < |us|
    {
      var i :| 0 <= i < |PairUp(uo, us)| && PairUp(uo, us)[i] == b;
      PairUpAt(uo, us, i);
    }
  }

  lemma PairUpAt(uo: seq<Entry>, us: seq<Entry>, i: nat)
    requires i < |PairUp(uo, us)|
    ensures PairUp(uo, us)[i] ==
            if i < Min(|uo|, |us|) then ModifiedPair(uo[i], us[i])
            else if i < |uo| then RemovedOf(uo[i])
            else AddedOf(us[i])
  {
    var m := Min(|uo|, |us|);
    var pairs, rem, add := Pairs(uo, us), Map(uo[m..], RemovedOf), Map(us[m..], AddedOf);
    assert PairUp(uo, us) == pairs + rem + add;
    if i < m {
      assert PairUp(uo, us)[i] == pairs[i];
    } else if i < |uo| {
      assert PairUp(uo, us)[i] == rem[i - m];
    } else {
      assert PairUp(uo, us)[i] == add[i - m];
    }
  }

  /** Every merged pair is a removal and an injection of one name. */
  lemma {:induction false} MergedHas(removals: seq<Action>, injections: seq<Action>, m: Action) returns (r: Action, i: Action)
    requires m in Merged(removals, injections)
    ensures r in removals && i in injections && r.component == i.component && m == Merge(r, i)
  {
    var init, last := removals[..|removals| - 1], removals[|removals| - 1];
    var pool := Leftover(injections, ComponentOf, Bag(init, ComponentOf));
    LeftoverSubset(injections, ComponentOf, Bag(init, ComponentOf));
    var k := FirstIndex(pool, ComponentOf, last.component);
    if k < |pool| && m == Merge(last, pool[k]) {
      r, i := last, pool[k];
    } else {
      r, i := MergedHas(init, injections, m);
    }
  }

  /** What the name pass pairs. */
  function NamePairs(original: Document, submitted: Document): seq<Action> {
    var actions := KeyedActions(original, submitted);
    Merged(WithStatus(actions, Removed), WithStatus(actions, Added))
  }

  lemma KeyedAction(original: Document, submitted: Document, a: Action) returns (key: string)
    requires a in KeyedActions(original, submitted)
    ensures a in GroupActions(EntriesAt(original, key), EntriesAt(submitted, key))
  {
    var groups := GroupsOf(original, submitted);
    FlatMapHas(AllKeys(original, submitted), groups, a);
    key :| key in AllKeys(original, submitted) && a in groups(key);
  }

  /** The pairs of the name pass are the only reported modifications that can carry equal versions. */
  lemma ReportedModifications(original: Document, submitted: Document, a: Action)
    requires a.status == Modified
    ensures a in NamePairs(original, submitted) ==> a in Report(original, submitted)
    ensures a in Report(original, submitted) && a !in NamePairs(original, submitted) ==> VersionsDiffer(a)
  {
    var actions := KeyedActions(original, submitted);
    var rem, inj := WithStatus(actions, Removed), WithStatus(actions, Added);
    WithStatusHas(actions, Modified, a);
    LeftoverSubset(rem, ComponentOf, Bag(inj, ComponentOf));
    LeftoverSubset(inj, ComponentOf, Bag(rem, ComponentOf));
    WithStatusHas(actions, Removed, a);
    WithStatusHas(actions, Added, a);
    if a in actions {
      var key := KeyedAction(original, submitted, a);
      GroupIsOneSided(EntriesAt(original, key), EntriesAt(submitted, key), a);
    }
  }

  /** Every reported modification has two different versions exactly when every pair made by the name pass has. */
  lemma ModificationsDifferIffPairsDo(original: Document, submitted: Document)
    ensures (forall a :: a in Report(original, submitted) && a.status == Modified ==> VersionsDiffer(a)) <==>
            (forall a :: a in NamePairs(original, submitted) ==> VersionsDiffer(a))
  {
    forall a: Action | a.status == Modified
      ensures a in NamePairs(original, submitted) ==> a in Report(original, submitted)
      ensures a in Report(original, submitted) && a !in NamePairs(original, submitted) ==> VersionsDiffer(a)
    {
      ReportedModifications(original, submitted, a);
    }
  }

  /** A component of the original and one of the submission with the same name and version under different keys. */
  predicate Rekeyed(original: Document, submitted: Document, i: nat, j: nat) {
    && i < |original| && j < |submitted| && original[i].Component? && submitted[j].Component?
    && StableKey(original[i]) != StableKey(submitted[j]) && ToEntry(original[i]) == ToEntry(submitted[j])
  }

  /** A pair always comes from two keys, so one with equal versions is a rekeyed component. */
  lemma EqualPairIsRekeyed(original: Document, submitted: Document, m: Action) returns (i: nat, j: nat)
    requires m in NamePairs(original, submitted) && !VersionsDiffer(m)
    ensures Rekeyed(original, submitted, i, j)
  {
    var actions := KeyedActions(original, submitted);
    var r, inj := MergedHas(WithStatus(actions, Removed), WithStatus(actions, Added), m);
    WithStatusHas(actions, Removed, r);
    WithStatusHas(actions, Added, inj);
    var k := KeyedAction(original, submitted, r);
    var l := KeyedAction(original, submitted, inj);
    GroupIsOneSided(EntriesAt(original, k), EntriesAt(submitted, k), r);
    GroupIsOneSided(EntriesAt(original, l), EntriesAt(submitted, l), inj);
    var e :| e in EntriesAt(original, k) && r == RemovedOf(e);
    var f :| f in EntriesAt(submitted, l) && inj == AddedOf(f);
    i := EntriesAtHas(original, k, e);
    j := EntriesAtHas(submitted, l, f);
  }

  /**
   Where no component has merely changed its key, every reported modification has two different versions. The converse is
   ModificationsDifferIffPairsDo: on the documents it would be too strong, since a rekeyed component can also be matched
   under one of its keys, or be paired with another version of its name.
   */
  lemma ModificationsDifferUnlessRekeyed(original: Document, submitted: Document)
    requires forall i, j :: !Rekeyed(original, submitted, i, j)
    ensures forall a :: a in Report(original, submitted) && a.status == Modified ==> VersionsDiffer(a)
  {
    forall a | a in NamePairs(original, submitted) ensures VersionsDiffer(a) {
      if !VersionsDiffer(a) {
        var i, j := EqualPairIsRekeyed(original, submitted, a);
        assert false;
      }
    }
    ModificationsDifferIffPairsDo(original, submitted);
  }

  /** Pass 3 can report a modification whose two versions are equal: only the key of the component changed. */
  lemma RekeyedComponentLooksModified(before: RawItem, after: RawItem)
    requires before.Component? && after.Component? && StableKey(before) != StableKey(after)
    requires before.name == after.name && before.version == after.version
    ensures var e := ToEntry(before);
            Report([before], [after]) == [Action(e.name, e.version, e.version, Modified)]
  {
    KeyedActionsOfSingles(before, after);
    PairOfOneEach(RemovedOf(ToEntry(before)), AddedOf(ToEntry(after)));
  }

  // ---------------------------------------------------------------- what the report names

  /** The component has this name and version, where a missing name reads Unknown. */
  predicate Stands(c: RawItem, name: string, version: Option<string>) {
    && c.Component? && name == (if c.name == "" then "Unknown" else c.name)
    && version == (if c.version == "" then None else Some(c.version))
  }

  lemma GroupedComponentStands(doc: Document, key: string, e: Entry)
    requires e in EntriesAt(doc, key)
    ensures exists c :: c in doc && Stands(c, e.name, e.version)
  {
    var i := EntriesAtHas(doc, key, e);
    assert doc[i] in doc && Stands(doc[i], e.name, e.version);
  }

  /** A modification inside a group takes its name and old version from an original and its new version from a submission. */
  lemma GroupModification(os: seq<Entry>, ss: seq<Entry>, a: Action) returns (o: Entry, s: Entry)
    requires a in GroupActions(os, ss) && a.status == Modified
    ensures o in os && s in ss && a == ModifiedPair(o, s)
  {
    var uo, us := Leftover(os, VersionOf, Bag(ss, VersionOf)), Leftover(ss, VersionOf, Bag(os, VersionOf));
    LeftoverSubset(os, VersionOf, Bag(ss, VersionOf));
    LeftoverSubset(ss, VersionOf, Bag(os, VersionOf));
    var i :| 0 <= i < |PairUp(uo, us)| && PairUp(uo, us)[i] == a;
    PairUpAt(uo, us, i);
    o, s := uo[i], us[i];
    assert o in uo && s in us;
  }

  lemma KeyedActionStands(original: Document, submitted: Document, a: Action)
    requires a in KeyedActions(original, submitted)
    ensures a.status != Added ==> exists c :: c in original && Stands(c, a.component, a.originalVersion)
    ensures a.status == Added ==> a.originalVersion == None && exists c :: c in submitted && Stands(c, a.component, a.modifiedVersion)
    ensures a.status == Modified ==> exists c :: c in submitted && exists name :: Stands(c, name, a.modifiedVersion)
    ensures a.status == Removed ==> a.modifiedVersion == None
  {
    var key := KeyedAction(original, submitted, a);
    var os, ss := EntriesAt(original, key), EntriesAt(submitted, key);
    if a.status == Modified {
      var o, s := GroupModification(os, ss, a);
      GroupedComponentStands(original, key, o);
      GroupedComponentStands(submitted, key, s);
    } else {
      GroupIsOneSided(os, ss, a);
      if a.status == Removed {
        var e :| e in os && a == RemovedOf(e);
        GroupedComponentStands(original, key, e);
      } else {
        var e :| e in ss && a == AddedOf(e);
        GroupedComponentStands(submitted, key, e);
      }
    }
  }

  lemma ReportedFrom(original: Document, submitted: Document, a: Action)
    requires a in Report(original, submitted)
    ensures a in KeyedActions(original, submitted) || a in NamePairs(original, submitted)
  {
    var actions := KeyedActions(original, submitted);
    var rem, inj := WithStatus(actions, Removed), WithStatus(actions, Added);
    LeftoverSubset(rem, ComponentOf, Bag(inj, ComponentOf));
    LeftoverSubset(inj, ComponentOf, Bag(rem, ComponentOf));
    WithStatusHas(actions, Modified, a);
    WithStatusHas(actions, Removed, a);
    WithStatusHas(actions, Added, a);
  }

  /** Nothing is made up: what is reported as removed or modified was there as it says, and likewise what is reported as new. */
  lemma ReportedComponentsExist(original: Document, submitted: Document, a: Action)
    requires a in Report(original, submitted)
    ensures a.status != Added ==> exists c :: c in original && Stands(c, a.component, a.originalVersion)
    ensures a.status == Added ==> a.originalVersion == None && exists c :: c in submitted && Stands(c, a.component, a.modifiedVersion)
    ensures a.status == Modified ==> exists c :: c in submitted && exists name :: Stands(c, name, a.modifiedVersion)
    ensures a.status == Removed ==> a.modifiedVersion == None
  {
    ReportedFrom(original, submitted, a);
    var actions := KeyedActions(original, submitted);
    if a in actions {
      KeyedActionStands(original, submitted, a);
    } else {
      var r, i := MergedHas(WithStatus(actions, Removed), WithStatus(actions, Added), a);
      WithStatusHas(actions, Removed, r);
      WithStatusHas(actions, Added, i);
      KeyedActionStands(original, submitted, r);
      KeyedActionStands(original, submitted, i);
    }
  }
}

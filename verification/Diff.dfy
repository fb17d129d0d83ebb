/**
 The tamper diff: group components by stable key, match versions inside each group, pair what is left by name,
 classify.
 */
module Diff {
  import opened Prelude
  import opened Matching

  /** An item of the components array. An empty string stands for an absent field: the code reads both alike. */
  datatype RawItem = NotAnObject | Component(purl: string, bomRef: string, name: string, version: string)
  type Document = seq<RawItem>

  datatype Entry = Entry(name: string, version: Option<string>)
  datatype Status = Removed | Modified | Added
  datatype Action = Action(component: string, originalVersion: Option<string>, modifiedVersion: Option<string>, status: Status)
  datatype ChangeType =
    | ComponentInjection | ComponentRemoval | VersionModification | MetadataModification | OtherModification

  // ---------------------------------------------------------------- stable keys

  function IndexOf(s: string, c: char): (i: nat)
    ensures i <= |s|
    ensures i < |s| ==> s[i] == c
    ensures forall j :: 0 <= j < i ==> s[j] != c
  {
    if s == [] then 0 else if s[0] == c then 0 else 1 + IndexOf(s[1..], c)
  }

  function LastIndexOf(s: string, c: char): (i: nat)
    ensures i <= |s|
    ensures i < |s| ==> s[i] == c && forall j :: i < j < |s| ==> s[j] != c
    ensures i == |s| ==> c !in s
  {
    if s == [] then 0
    else if s[|s| - 1] == c then |s| - 1
    else
      var i := LastIndexOf(s[..|s| - 1], c);
      if i == |s| - 1 then |s| else i
  }

  predicate EndsVersion(c: char) {
    c == '@' || c == '?' || c == '#'
  }

  /** End of the run of version characters that starts at `from`. */
  function RunEnd(s: string, from: nat): (j: nat)
    requires from <= |s|
    ensures from <= j <= |s|
    ensures forall k :: from <= k < j ==> !EndsVersion(s[k])
    ensures j < |s| ==> EndsVersion(s[j])
    decreases |s| - from
  {
    if from == |s| || EndsVersion(s[from]) then from else RunEnd(s, from + 1)
  }

  function StripPurlVersion(purl: string): string {
    var at := IndexOf(purl, '@');
    if at == |purl| then purl else purl[..at] + purl[RunEnd(purl, at + 1)..]
  }

  function StripRefVersion(bomRef: string): string {
    bomRef[..LastIndexOf(bomRef, '@')]
  }

  function OrUnknown(name: string): string {
    if name == "" then "Unknown" else name
  }

  function StableKey(c: RawItem): string
    requires c.Component?
  {
    if c.purl != "" then StripPurlVersion(c.purl)
    else if c.bomRef != "" then StripRefVersion(c.bomRef)
    else "name:" + OrUnknown(c.name)
  }

  function ToEntry(c: RawItem): Entry
    requires c.Component?
  {
    Entry(OrUnknown(c.name), if c.version == "" then None else Some(c.version))
  }

  /**
   Two versions of one purl share a key exactly when the unversioned purl has no '@' of its own. A scoped name such
   as pkg:npm/@scope/name loses the name and keeps the version.
   */
  lemma PurlKeyIgnoresVersionIff(base: string, v1: string, v2: string)
    requires forall c :: c in v1 || c in v2 ==> !EndsVersion(c)
    ensures StripPurlVersion(base + "@" + v1) == StripPurlVersion(base + "@" + v2) <==> '@' !in base || v1 == v2
  {
    PurlKeyShape(base, v1);
    PurlKeyShape(base, v2);
    if '@' in base && v1 != v2 {
      var kept := KeptOfScoped(base) + "@";
      assert (kept + v1)[|kept|..] == v1 && (kept + v2)[|kept|..] == v2;
    }
  }

  lemma PurlKeyShape(base: string, v: string)
    requires forall c :: c in v ==> !EndsVersion(c)
    ensures '@' !in base ==> StripPurlVersion(base + "@" + v) == base
    ensures '@' in base ==> StripPurlVersion(base + "@" + v) == KeptOfScoped(base) + "@" + v
  {
    if '@' in base {
      ScopedPurlKey(base, "@" + v);
      assert base + ("@" + v) == base + "@" + v;
      assert KeptOfScoped(base) + ("@" + v) == KeptOfScoped(base) + "@" + v;
    } else {
      PlainPurlKey(base, v);
    }
  }

  /** What survives of a purl that has an '@' before its version. */
  function KeptOfScoped(base: string): string
    requires '@' in base
  {
    var i := IndexOf(base, '@');
    base[..i] + base[RunEnd(base, i + 1)..]
  }

  lemma {:induction false} FirstAt(s: string, c: char, i: nat)
    requires i < |s| && s[i] == c && forall j :: 0 <= j < i ==> s[j] != c
    ensures IndexOf(s, c) == i
  {
    if i > 0 {
      FirstAt(s[1..], c, i - 1);
    }
  }

  lemma PlainPurlKey(base: string, v: string)
    requires '@' !in base
    requires forall c :: c in v ==> !EndsVersion(c)
    ensures StripPurlVersion(base + "@" + v) == base
  {
    var p := base + "@" + v;
    FirstAt(p, '@', |base|);
    forall k | |base| + 1 <= k < |p| ensures !EndsVersion(p[k]) {
      assert p[k] == v[k - |base| - 1];
    }
    RunEndAt(p, |base| + 1, |p|);
    assert p[..|base|] + p[|p|..] == base;
  }

  lemma SpliceThree(base: string, i: nat, j: nat, tail: string)
    requires i <= j <= |base|
    ensures (base + tail)[..i] + (base + tail)[j..] == base[..i] + base[j..] + tail
  {
    assert (base + tail)[..i] == base[..i];
    assert (base + tail)[j..] == base[j..] + tail;
  }

  lemma {:induction false} RunEndConcat(base: string, from: nat, tail: string)
    requires from <= |base| && tail != "" && EndsVersion(tail[0])
    ensures RunEnd(base + tail, from) == RunEnd(base, from)
    decreases |base| - from
  {
    if from < |base| && !EndsVersion(base[from]) {
      RunEndConcat(base, from + 1, tail);
    }
  }

  lemma {:induction false} IndexOfConcat(base: string, tail: string, c: char)
    requires c in base
    ensures IndexOf(base + tail, c) == IndexOf(base, c)
  {
    if base[0] != c {
      assert (base + tail)[1..] == base[1..] + tail;
      IndexOfConcat(base[1..], tail, c);
    }
  }

  lemma ScopedPurlKey(base: string, tail: string)
    requires '@' in base && tail != "" && EndsVersion(tail[0])
    ensures StripPurlVersion(base + tail) == KeptOfScoped(base) + tail
  {
    var i := IndexOf(base, '@');
    IndexOfConcat(base, tail, '@');
    RunEndConcat(base, i + 1, tail);
    SpliceThree(base, i, RunEnd(base, i + 1), tail);
  }

  lemma {:induction false} RunEndAt(s: string, from: nat, j: nat)
    requires from <= j <= |s|
    requires forall k :: from <= k < j ==> !EndsVersion(s[k])
    requires j < |s| ==> EndsVersion(s[j])
    ensures RunEnd(s, from) == j
    decreases |s| - from
  {
    if from < j {
      RunEndAt(s, from + 1, j);
    }
  }

  /** A key depends on the purl alone if there is one, else on the bom-ref alone if there is one, else on the name. */
  lemma PurlThenRefThenName(c: RawItem, otherRef: string, otherName: string)
    requires c.Component?
    ensures c.purl != "" ==> StableKey(c.(bomRef := otherRef, name := otherName)) == StableKey(c)
    ensures c.purl == "" && c.bomRef != "" ==> StableKey(c.(name := otherName)) == StableKey(c)
  {
  }

  /** Two components with neither purl nor bom-ref share a key iff their names, Unknown by default, are equal. */
  lemma NameKeysIff(c: RawItem, d: RawItem)
    requires c.Component? && d.Component? && c.purl == "" && c.bomRef == "" && d.purl == "" && d.bomRef == ""
    ensures StableKey(c) == StableKey(d) <==>
            (if c.name == "" then "Unknown" else c.name) == (if d.name == "" then "Unknown" else d.name)
  {
    var x, y := OrUnknown(c.name), OrUnknown(d.name);
    assert ("name:" + x)[5..] == x && ("name:" + y)[5..] == y;
  }

  lemma {:induction false} LastAt(s: string, c: char, i: nat)
    requires i < |s| && s[i] == c && forall j :: i < j < |s| ==> s[j] != c
    ensures LastIndexOf(s, c) == i
  {
    if i < |s| - 1 {
      LastAt(s[..|s| - 1], c, i);
    }
  }

  lemma RefKeyShape(base: string, v: string)
    requires '@' !in v
    ensures StripRefVersion(base + "@" + v) == base
  {
    var r := base + "@" + v;
    forall j | |base| < j < |r| ensures r[j] != '@' {
      assert r[j] == v[j - |base| - 1];
    }
    LastAt(r, '@', |base|);
    assert r[..|base|] == base;
  }

  /** Without a purl, two bom-refs that end in a version share a key iff what precedes their last '@' is equal. */
  lemma RefKeysIff(c: RawItem, d: RawItem, a: string, v: string, b: string, w: string)
    requires c.Component? && d.Component? && c.purl == "" && d.purl == "" && '@' !in v && '@' !in w
    requires c.bomRef == a + "@" + v && d.bomRef == b + "@" + w
    ensures StableKey(c) == StableKey(d) <==> a == b
  {
    RefKeyShape(a, v);
    RefKeyShape(b, w);
  }

  /** A bom-ref without any '@' is its own key. */
  lemma PlainRefKey(c: RawItem)
    requires c.Component? && c.purl == "" && c.bomRef != "" && '@' !in c.bomRef
    ensures StableKey(c) == c.bomRef
  {
    assert LastIndexOf(c.bomRef, '@') == |c.bomRef|;
    assert c.bomRef[..|c.bomRef|] == c.bomRef;
  }

  lemma PurlKeyWithTail(base: string, v: string, tail: string)
    requires '@' !in base && (forall c :: c in v ==> !EndsVersion(c)) && (tail == "" || EndsVersion(tail[0]))
    ensures StripPurlVersion(base + "@" + v + tail) == base + tail
  {
    var p := base + "@" + v + tail;
    FirstAt(p, '@', |base|);
    forall k | |base| + 1 <= k < |base| + 1 + |v| ensures !EndsVersion(p[k]) {
      assert p[k] == v[k - |base| - 1];
    }
    assert tail != "" ==> p[|base| + 1 + |v|] == tail[0];
    RunEndAt(p, |base| + 1, |base| + 1 + |v|);
    assert p[..|base|] == base && p[|base| + 1 + |v|..] == tail;
  }

  /** Two versioned purls share a key iff they agree before the version and after it, in their qualifiers. */
  lemma PurlKeysIff(c: RawItem, d: RawItem, a: string, v: string, s: string, b: string, w: string, t: string)
    requires c.Component? && d.Component? && '@' !in a && '@' !in b
    requires forall x :: x in v || x in w ==> x != '@' && x != '?' && x != '#'
    requires (s == "" || s[0] == '?' || s[0] == '#') && (t == "" || t[0] == '?' || t[0] == '#')
    requires c.purl == a + "@" + v + s && d.purl == b + "@" + w + t
    ensures StableKey(c) == StableKey(d) <==> a + s == b + t
  {
    PurlKeyWithTail(a, v, s);
    PurlKeyWithTail(b, w, t);
  }

  /** A purl without any '@' is its own key. */
  lemma PlainPurlIsKey(c: RawItem)
    requires c.Component? && c.purl != "" && '@' !in c.purl
    ensures StableKey(c) == c.purl
  {
  }

  // ---------------------------------------------------------------- grouping

  function EntriesAt(doc: Document, key: string): seq<Entry> {
    if doc == [] then []
    else
      var init, c := doc[..|doc| - 1], doc[|doc| - 1];
      var es := EntriesAt(init, key);
      if c.Component? && StableKey(c) == key then es + [ToEntry(c)] else es
  }

  function Entries(doc: Document): seq<Entry> {
    if doc == [] then []
    else
      var init, c := doc[..|doc| - 1], doc[|doc| - 1];
      if c.Component? then Entries(init) + [ToEntry(c)] else Entries(init)
  }

  /** The keys in order of first occurrence, the iteration order of the map. */
  function KeysOf(doc: Document): seq<string> {
    if doc == [] then []
    else
      var init, c := doc[..|doc| - 1], doc[|doc| - 1];
      var keys := KeysOf(init);
      if c.Component? && StableKey(c) !in keys then keys + [StableKey(c)] else keys
  }

  lemma {:induction false} KeysOfGroups(doc: Document)
    ensures Distinct(KeysOf(doc))
    ensures forall k :: k in KeysOf(doc) <==> EntriesAt(doc, k) != []
  {
    if doc != [] {
      KeysOfGroups(doc[..|doc| - 1]);
    }
  }

  method BuildComponentMap(doc: Document) returns (keys: seq<string>, groups: map<string, seq<Entry>>)
    ensures keys == KeysOf(doc)
    ensures groups.Keys == set k | k in keys
    ensures forall k :: k in keys ==> groups[k] == EntriesAt(doc, k) && groups[k] != []
    ensures forall k :: k !in keys ==> EntriesAt(doc, k) == []
  {
    keys, groups := [], map[];
    var i := 0;
    while i < |doc|
      invariant 0 <= i <= |doc|
      invariant keys == KeysOf(doc[..i])
      invariant groups.Keys == set k | k in keys
      invariant forall k :: k in keys ==> groups[k] == EntriesAt(doc[..i], k)
      invariant forall k :: k !in keys ==> EntriesAt(doc[..i], k) == []
    {
      assert doc[..i + 1][..i] == doc[..i];
      var comp := doc[i];
      if comp.Component? {
        var key := StableKey(comp);
        if key !in groups {
          keys, groups := keys + [key], groups[key := []];
        }
        groups := groups[key := groups[key] + [ToEntry(comp)]];
      }
      i := i + 1;
    }
    assert doc[..i] == doc;
    KeysOfGroups(doc);
  }

  // ---------------------------------------------------------------- one key group

  function VersionOf(e: Entry): Option<string> { e.version }

  function ModifiedPair(o: Entry, s: Entry): Action { Action(o.name, o.version, s.version, Modified) }

  function RemovedOf(e: Entry): Action { Action(e.name, e.version, None, Removed) }

  function AddedOf(e: Entry): Action { Action(e.name, None, e.version, Added) }

  function PairUp(uo: seq<Entry>, us: seq<Entry>): seq<Action> {
    var m := Min(|uo|, |us|);
    seq(m, i requires 0 <= i < m => ModifiedPair(uo[i], us[i])) + Map(uo[m..], RemovedOf) + Map(us[m..], AddedOf)
  }

  /** What the first two passes report for the originals and the submissions of one key. */
  function GroupActions(os: seq<Entry>, ss: seq<Entry>): seq<Action> {
    PairUp(Leftover(os, VersionOf, Bag(ss, VersionOf)), Leftover(ss, VersionOf, Bag(os, VersionOf)))
  }

  function ClassOf(st: Status): ChangeType {
    match st
    case Removed => ComponentRemoval
    case Modified => VersionModification
    case Added => ComponentInjection
  }

  function Classes(actions: seq<Action>): (classes: set<ChangeType>)
    ensures forall c :: c in classes <==> exists i :: 0 <= i < |actions| && ClassOf(actions[i].status) == c
  {
    if actions == [] then {} else Classes(actions[..|actions| - 1]) + {ClassOf(actions[|actions| - 1].status)}
  }

  lemma {:induction false} ClassesConcat(a: seq<Action>, b: seq<Action>)
    ensures Classes(a + b) == Classes(a) + Classes(b)
  {
    if b == [] {
      assert a + b == a;
    } else {
      assert (a + b)[..|a + b| - 1] == a + b[..|b| - 1];
      ClassesConcat(a, b[..|b| - 1]);
    }
  }

  lemma GroupOfOneSide(es: seq<Entry>)
    ensures GroupActions(es, []) == Map(es, RemovedOf)
    ensures GroupActions([], es) == Map(es, AddedOf)
  {
    assert Map<Entry, Option<string>>([], VersionOf) == [];
    LeftoverOfNothing(es, VersionOf);
  }

  lemma GroupOfOneEach(o: Entry, s: Entry)
    ensures GroupActions([o], [s]) == if o.version != s.version then [ModifiedPair(o, s)] else []
  {
    assert Map([o], VersionOf) == [o.version] && Map([s], VersionOf) == [s.version];
    assert Leftover<Entry, Option<string>>([], VersionOf, multiset{s.version}) == [];
    assert Leftover<Entry, Option<string>>([], VersionOf, multiset{o.version}) == [];
    assert Bag<Entry, Option<string>>([], VersionOf) == multiset{};
    assert [o][..0] == [] && [s][..0] == [];
  }

  method PushRemoved(comps: seq<Entry>) returns (actions: seq<Action>)
    ensures actions == Map(comps, RemovedOf)
  {
    actions := [];
    var i := 0;
    while i < |comps|
      invariant 0 <= i <= |comps|
      invariant actions == Map(comps[..i], RemovedOf)
    {
      actions := actions + [RemovedOf(comps[i])];
      i := i + 1;
    }
    assert comps[..i] == comps;
  }

  method PushAdded(comps: seq<Entry>) returns (actions: seq<Action>)
    ensures actions == Map(comps, AddedOf)
  {
    actions := [];
    var i := 0;
    while i < |comps|
      invariant 0 <= i <= |comps|
      invariant actions == Map(comps[..i], AddedOf)
    {
      actions := actions + [AddedOf(comps[i])];
      i := i + 1;
    }
    assert comps[..i] == comps;
  }

  method PushPaired(unmatchedOrig: seq<Entry>, unmatchedSub: seq<Entry>) returns (actions: seq<Action>)
    ensures actions == PairUp(unmatchedOrig, unmatchedSub)
  {
    var minLen := Min(|unmatchedOrig|, |unmatchedSub|);
    actions := [];
    var i := 0;
    while i < minLen
      invariant 0 <= i <= minLen
      invariant actions == seq(i, j requires 0 <= j < i => ModifiedPair(unmatchedOrig[j], unmatchedSub[j]))
    {
      actions := actions + [ModifiedPair(unmatchedOrig[i], unmatchedSub[i])];
      i := i + 1;
    }
    var removed := PushRemoved(unmatchedOrig[minLen..]);
    var added := PushAdded(unmatchedSub[minLen..]);
    actions := actions + removed + added;
  }

  /** One callback of pass 1: three branches, each meeting the one specification. */
  method DiffGroup(origComps: seq<Entry>, subComps: seq<Entry>) returns (actions: seq<Action>)
    ensures actions == GroupActions(origComps, subComps)
  {
    if |subComps| == 0 {
      GroupOfOneSide(origComps);
      actions := PushRemoved(origComps);
    } else if |origComps| == 1 && |subComps| == 1 {
      var origC, subC := origComps[0], subComps[0];
      assert origComps == [origC] && subComps == [subC];
      GroupOfOneEach(origC, subC);
      actions := if origC.version != subC.version then [ModifiedPair(origC, subC)] else [];
    } else {
      var unmatchedOrig, unmatchedSub := GreedyMatch(origComps, subComps, VersionOf);
      actions := PushPaired(unmatchedOrig, unmatchedSub);
    }
  }

  // ---------------------------------------------------------------- passes 1 and 2

  function Except(keys: seq<string>, others: seq<string>): seq<string> {
    if keys == [] then []
    else
      var k := keys[|keys| - 1];
      var kept := Except(keys[..|keys| - 1], others);
      if k in others then kept else kept + [k]
  }

  function AllKeys(original: Document, submitted: Document): seq<string> {
    KeysOf(original) + Except(KeysOf(submitted), KeysOf(original))
  }

  /** The report of every key group. */
  function GroupsOf(original: Document, submitted: Document): string -> seq<Action> {
    k => GroupActions(EntriesAt(original, k), EntriesAt(submitted, k))
  }

  function KeyedActions(original: Document, submitted: Document): seq<Action> {
    FlatMap(AllKeys(original, submitted), GroupsOf(original, submitted))
  }

  lemma {:induction false} ExceptIsFilter(keys: seq<string>, others: seq<string>)
    ensures forall k :: k in Except(keys, others) <==> k in keys && k !in others
    ensures Distinct(keys) ==> Distinct(Except(keys, others))
  {
    if keys != [] {
      ExceptIsFilter(keys[..|keys| - 1], others);
    }
  }

  lemma DistinctConcat<T>(xs: seq<T>, ys: seq<T>)
    requires Distinct(xs) && Distinct(ys)
    requires forall x :: x in xs ==> x !in ys
    ensures Distinct(xs + ys)
  {
    forall i, j | 0 <= i < j < |xs + ys| ensures (xs + ys)[i] != (xs + ys)[j] {
      if i < |xs| <= j {
        assert xs[i] in xs && ys[j - |xs|] in ys;
      }
    }
  }

  lemma AllKeysAreAll(original: Document, submitted: Document)
    ensures Distinct(AllKeys(original, submitted))
    ensures forall k :: k in AllKeys(original, submitted) <==> EntriesAt(original, k) != [] || EntriesAt(submitted, k) != []
  {
    KeysOfGroups(original);
    KeysOfGroups(submitted);
    ExceptIsFilter(KeysOf(submitted), KeysOf(original));
    DistinctConcat(KeysOf(original), Except(KeysOf(submitted), KeysOf(original)));
  }

  /** The callback of pass 1 on one key. */
  method DiffKey(key: string, origMap: map<string, seq<Entry>>, subMap: map<string, seq<Entry>>,
                 ghost groups: string -> seq<Action>)
    returns (actions: seq<Action>, actionsSeen: set<ChangeType>)
    requires key in origMap
    requires groups(key) == GroupActions(origMap[key], if key in subMap then subMap[key] else [])
    ensures actions == groups(key)
    ensures actionsSeen == Classes(actions)
  {
    var subComps := if key in subMap then subMap[key] else [];
    actions := DiffGroup(origMap[key], subComps);
    actionsSeen := Classes(actions);
  }

  /** Pass 1: the callback over the map of originals. */
  method RemovalPass(origKeys: seq<string>, origMap: map<string, seq<Entry>>, subMap: map<string, seq<Entry>>,
                     ghost groups: string -> seq<Action>)
    returns (actions: seq<Action>, actionsSeen: set<ChangeType>)
    requires forall k :: k in origKeys ==>
               k in origMap && groups(k) == GroupActions(origMap[k], if k in subMap then subMap[k] else [])
    ensures actions == FlatMap(origKeys, groups)
    ensures actionsSeen == Classes(actions)
  {
    actions, actionsSeen := [], {};
    for i := 0 to |origKeys|
      invariant actions == FlatMap(origKeys[..i], groups)
      invariant actionsSeen == Classes(actions)
    {
      var key := origKeys[i];
      var found, foundSeen := DiffKey(key, origMap, subMap, groups);
      FlatMapTake(origKeys, i, groups);
      ClassesConcat(actions, found);
      actions, actionsSeen := actions + found, actionsSeen + foundSeen;
    }
    assert origKeys[..|origKeys|] == origKeys;
  }

  lemma ExceptTake(keys: seq<string>, i: nat, others: seq<string>, groups: string -> seq<Action>)
    requires i < |keys|
    ensures keys[i] in others ==> FlatMap(Except(keys[..i + 1], others), groups) == FlatMap(Except(keys[..i], others), groups)
    ensures keys[i] !in others ==>
              FlatMap(Except(keys[..i + 1], others), groups) == FlatMap(Except(keys[..i], others), groups) + groups(keys[i])
  {
    assert keys[..i + 1][..i] == keys[..i];
    FlatMapSnoc(Except(keys[..i], others), keys[i], groups);
  }

  /** Pass 2: the keys that only the submission has. */
  method InjectionPass(origKeys: seq<string>, subKeys: seq<string>, subMap: map<string, seq<Entry>>,
                       ghost groups: string -> seq<Action>)
    returns (actions: seq<Action>, actionsSeen: set<ChangeType>)
    requires forall k :: k in subKeys ==> k in subMap && (k !in origKeys ==> groups(k) == Map(subMap[k], AddedOf))
    ensures actions == FlatMap(Except(subKeys, origKeys), groups)
    ensures actionsSeen == Classes(actions)
  {
    actions, actionsSeen := [], {};
    var i := 0;
    while i < |subKeys|
      invariant 0 <= i <= |subKeys|
      invariant actions == FlatMap(Except(subKeys[..i], origKeys), groups)
      invariant actionsSeen == Classes(actions)
    {
      var key := subKeys[i];
      ExceptTake(subKeys, i, origKeys, groups);
      if key !in origKeys {
        var found := PushAdded(subMap[key]);
        ClassesConcat(actions, found);
        actions, actionsSeen := actions + found, actionsSeen + Classes(found);
      }
      i := i + 1;
    }
    assert subKeys[..i] == subKeys;
  }

  method KeyedPasses(original: Document, submitted: Document)
    returns (actions: seq<Action>, actionsSeen: set<ChangeType>)
    ensures actions == KeyedActions(original, submitted)
    ensures actionsSeen == Classes(actions)
  {
    var origKeys, origMap := BuildComponentMap(original);
    var subKeys, subMap := BuildComponentMap(submitted);
    ghost var groups := GroupsOf(original, submitted);
    forall k | k in subKeys && k !in origKeys ensures groups(k) == Map(subMap[k], AddedOf) {
      GroupOfOneSide(subMap[k]);
    }
    var first, firstSeen := RemovalPass(origKeys, origMap, subMap, groups);
    var second, secondSeen := InjectionPass(origKeys, subKeys, subMap, groups);
    actions, actionsSeen := first + second, firstSeen + secondSeen;
    ClassesConcat(first, second);
    FlatMapConcat(origKeys, Except(subKeys, origKeys), GroupsOf(original, submitted));
  }

  // ---------------------------------------------------------------- pass 3

  function ComponentOf(a: Action): string { a.component }

  function WithStatus(actions: seq<Action>, st: Status): (kept: seq<Action>)
    ensures forall a :: a in kept ==> a.status == st
  {
    if actions == [] then []
    else
      var a := actions[|actions| - 1];
      var kept := WithStatus(actions[..|actions| - 1], st);
      if a.status == st then kept + [a] else kept
  }

  function Merge(removal: Action, injection: Action): Action {
    Action(removal.component, removal.originalVersion, injection.modifiedVersion, Modified)
  }

  /** Each removal in turn takes the first injection of its name that no earlier removal took. */
  function Merged(removals: seq<Action>, injections: seq<Action>): (merged: seq<Action>)
    ensures forall a :: a in merged ==> a.status == Modified
  {
    if removals == [] then []
    else
      var init, r := removals[..|removals| - 1], removals[|removals| - 1];
      var pool := Leftover(injections, ComponentOf, Bag(init, ComponentOf));
      var k := FirstIndex(pool, ComponentOf, r.component);
      if k < |pool| then Merged(init, injections) + [Merge(r, pool[k])] else Merged(init, injections)
  }

  /** The report after the name-based fallback. */
  function PairedByName(actions: seq<Action>): seq<Action> {
    var removals, injections := WithStatus(actions, Removed), WithStatus(actions, Added);
    var merged := Merged(removals, injections);
    if merged == [] then actions
    else WithStatus(actions, Modified) + merged
         + Leftover(removals, ComponentOf, Bag(injections, ComponentOf))
         + Leftover(injections, ComponentOf, Bag(removals, ComponentOf))
  }

  function Report(original: Document, submitted: Document): seq<Action> {
    PairedByName(KeyedActions(original, submitted))
  }

  /** The elements whose positions are not resolved. */
  function Unresolved<T>(xs: seq<T>, resolved: set<int>): seq<T> {
    if xs == [] then []
    else
      var rest := Unresolved(xs[..|xs| - 1], resolved);
      if |xs| - 1 in resolved then rest else rest + [xs[|xs| - 1]]
  }

  lemma {:induction false} UnresolvedIgnoresLater<T>(xs: seq<T>, resolved: set<int>, i: int)
    requires |xs| <= i
    ensures Unresolved(xs, resolved + {i}) == Unresolved(xs, resolved)
  {
    if xs != [] {
      UnresolvedIgnoresLater(xs[..|xs| - 1], resolved, i);
    }
  }

  lemma {:induction false} NothingResolved<T>(xs: seq<T>)
    ensures Unresolved(xs, {}) == xs
  {
    if xs != [] {
      NothingResolved(xs[..|xs| - 1]);
    }
  }

  lemma {:induction false} NoneUnresolved<T, L>(xs: seq<T>, resolved: set<int>, tag: T -> L, l: L)
    requires forall j :: 0 <= j < |xs| ==> j in resolved || tag(xs[j]) != l
    ensures FirstIndex(Unresolved(xs, resolved), tag, l) == |Unresolved(xs, resolved)|
  {
    if xs != [] {
      NoneUnresolved(xs[..|xs| - 1], resolved, tag, l);
      FirstIndexSnoc(Unresolved(xs[..|xs| - 1], resolved), xs[|xs| - 1], tag, l);
    }
  }

  /** Resolving the first open position with tag l takes the first such element out of the unresolved ones. */
  lemma {:induction false} ResolveFirst<T, L>(xs: seq<T>, resolved: set<int>, i: nat, tag: T -> L, l: L)
    requires i < |xs| && i !in resolved && tag(xs[i]) == l
    requires forall j :: 0 <= j < i ==> j in resolved || tag(xs[j]) != l
    ensures var pool := Unresolved(xs, resolved);
            var k := FirstIndex(pool, tag, l);
            && k < |pool| && pool[k] == xs[i]
            && Unresolved(xs, resolved + {i}) == RemoveAt(pool, k)
  {
    var init, last := xs[..|xs| - 1], xs[|xs| - 1];
    var rest := Unresolved(init, resolved);
    FirstIndexSnoc(rest, last, tag, l);
    if i == |xs| - 1 {
      NoneUnresolved(init, resolved, tag, l);
      UnresolvedIgnoresLater(init, resolved, i);
      assert RemoveAt(rest + [last], |rest|) == rest;
    } else {
      ResolveFirst(init, resolved, i, tag, l);
      var k := FirstIndex(rest, tag, l);
      assert RemoveAt(rest + [last], k) == RemoveAt(rest, k) + [last];
    }
  }

  lemma MergedSnoc(removals: seq<Action>, r: Action, injections: seq<Action>)
    ensures var pool := Leftover(injections, ComponentOf, Bag(removals, ComponentOf));
            var k := FirstIndex(pool, ComponentOf, r.component);
            Merged(removals + [r], injections) ==
            if k < |pool| then Merged(removals, injections) + [Merge(r, pool[k])] else Merged(removals, injections)
  {
    var all := removals + [r];
    assert all[..|all| - 1] == removals && all[|all| - 1] == r;
  }

  /** The inner loop: the first unresolved injection with the given name. */
  method FindInjection(injections: seq<Action>, resolved: set<int>, name: string) returns (ii: nat)
    ensures ii <= |injections|
    ensures ii < |injections| ==> ii !in resolved && injections[ii].component == name
    ensures forall j :: 0 <= j < ii ==> j in resolved || injections[j].component != name
  {
    ii := 0;
    while ii < |injections| && (ii in resolved || injections[ii].component != name)
      invariant 0 <= ii <= |injections|
      invariant forall j :: 0 <= j < ii ==> j in resolved || injections[j].component != name
    {
      ii := ii + 1;
    }
  }

  /** Where the outer loop stands after `done` removals. */
  ghost predicate Pairing(done: seq<Action>, injections: seq<Action>, merged: seq<Action>,
                          resolvedRemovals: set<int>, resolvedInjections: set<int>) {
    && merged == Merged(done, injections)
    && Unresolved(injections, resolvedInjections) == Leftover(injections, ComponentOf, Bag(done, ComponentOf))
    && Unresolved(done, resolvedRemovals) == Leftover(done, ComponentOf, Bag(injections, ComponentOf))
    && forall i :: i in resolvedRemovals ==> i < |done|
  }

  lemma PairingFound(done: seq<Action>, r: Action, injections: seq<Action>, merged: seq<Action>,
                     resolvedRemovals: set<int>, resolvedInjections: set<int>, ii: nat)
    requires Pairing(done, injections, merged, resolvedRemovals, resolvedInjections)
    requires ii < |injections| && ii !in resolvedInjections && injections[ii].component == r.component
    requires forall j :: 0 <= j < ii ==> j in resolvedInjections || injections[j].component != r.component
    ensures Pairing(done + [r], injections, merged + [Merge(r, injections[ii])],
                    resolvedRemovals + {|done|}, resolvedInjections + {ii})
  {
    GreedyStep(done, r, injections, ComponentOf);
    MergedSnoc(done, r, injections);
    ResolveFirst(injections, resolvedInjections, ii, ComponentOf, r.component);
    UnresolvedIgnoresLater(done, resolvedRemovals, |done|);
    assert (done + [r])[..|done|] == done;
  }

  lemma PairingNotFound(done: seq<Action>, r: Action, injections: seq<Action>, merged: seq<Action>,
                        resolvedRemovals: set<int>, resolvedInjections: set<int>)
    requires Pairing(done, injections, merged, resolvedRemovals, resolvedInjections)
    requires forall j :: 0 <= j < |injections| ==> j in resolvedInjections || injections[j].component != r.component
    ensures Pairing(done + [r], injections, merged, resolvedRemovals, resolvedInjections)
  {
    GreedyStep(done, r, injections, ComponentOf);
    MergedSnoc(done, r, injections);
    NoneUnresolved(injections, resolvedInjections, ComponentOf, r.component);
    assert (done + [r])[..|done|] == done;
  }

  lemma PairingStart(injections: seq<Action>)
    ensures Pairing([], injections, [], {}, {})
  {
    NothingResolved(injections);
    LeftoverOfNothing(injections, ComponentOf);
    assert Map<Action, string>([], ComponentOf) == [];
  }

  /** One iteration of the outer loop of pass 3. */
  method ResolveOne(removals: seq<Action>, ri: nat, injections: seq<Action>,
                    merged: seq<Action>, resolvedRemovals: set<int>, resolvedInjections: set<int>)
    returns (merged': seq<Action>, resolvedRemovals': set<int>, resolvedInjections': set<int>)
    requires ri < |removals|
    requires Pairing(removals[..ri], injections, merged, resolvedRemovals, resolvedInjections)
    ensures Pairing(removals[..ri + 1], injections, merged', resolvedRemovals', resolvedInjections')
  {
    var remComp := removals[ri];
    var ii := FindInjection(injections, resolvedInjections, remComp.component);
    TakeSnoc(removals, ri);
    if ii < |injections| {
      PairingFound(removals[..ri], remComp, injections, merged, resolvedRemovals, resolvedInjections, ii);
      merged' := merged + [Merge(remComp, injections[ii])];
      resolvedRemovals', resolvedInjections' := resolvedRemovals + {ri}, resolvedInjections + {ii};
    } else {
      PairingNotFound(removals[..ri], remComp, injections, merged, resolvedRemovals, resolvedInjections);
      merged', resolvedRemovals', resolvedInjections' := merged, resolvedRemovals, resolvedInjections;
    }
  }

  /** The nested index loops of pass 3. */
  method ResolvePairs(removals: seq<Action>, injections: seq<Action>)
    returns (merged: seq<Action>, resolvedRemovals: set<int>, resolvedInjections: set<int>)
    ensures Pairing(removals, injections, merged, resolvedRemovals, resolvedInjections)
  {
    resolvedRemovals, resolvedInjections, merged := {}, {}, [];
    PairingStart(injections);
    for ri := 0 to |removals|
      invariant Pairing(removals[..ri], injections, merged, resolvedRemovals, resolvedInjections)
    {
      merged, resolvedRemovals, resolvedInjections :=
        ResolveOne(removals, ri, injections, merged, resolvedRemovals, resolvedInjections);
    }
    assert removals[..|removals|] == removals;
  }

  /** Pass 3 as the code runs it: only when both classes were seen, and rebuilding only when something merged. */
  method PairByName(actions: seq<Action>, actionsSeen: set<ChangeType>)
    returns (affected: seq<Action>, seen: set<ChangeType>)
    requires actionsSeen == Classes(actions)
    ensures affected == PairedByName(actions)
    ensures seen == Classes(affected)
  {
    affected, seen := actions, actionsSeen;
    var removals, injections := WithStatus(actions, Removed), WithStatus(actions, Added);
    StatusSeen(actions, Removed);
    StatusSeen(actions, Added);
    if ComponentRemoval in actionsSeen && ComponentInjection in actionsSeen {
      var kept := WithStatus(actions, Modified);
      var merged, resolvedRemovals, resolvedInjections := ResolvePairs(removals, injections);
      if |merged| > 0 {
        affected := kept + merged + Unresolved(removals, resolvedRemovals) + Unresolved(injections, resolvedInjections);
        seen := Classes(affected);
      }
    } else {
      NothingToMerge(removals, injections);
    }
  }

  lemma {:induction false} StatusSeen(actions: seq<Action>, st: Status)
    ensures ClassOf(st) in Classes(actions) <==> WithStatus(actions, st) != []
  {
    if actions != [] {
      var init, a := actions[..|actions| - 1], actions[|actions| - 1];
      StatusSeen(init, st);
    }
  }

  lemma {:induction false} NothingToMerge(removals: seq<Action>, injections: seq<Action>)
    requires removals == [] || injections == []
    ensures Merged(removals, injections) == []
  {
    if removals != [] {
      NothingToMerge(removals[..|removals| - 1], injections);
    }
  }

  /** The most serious class seen decides the tamper type. */
  function PrimaryType(actionsSeen: set<ChangeType>): ChangeType {
    if ComponentInjection in actionsSeen then ComponentInjection
    else if ComponentRemoval in actionsSeen then ComponentRemoval
    else if VersionModification in actionsSeen then VersionModification
    else if MetadataModification in actionsSeen then MetadataModification
    else OtherModification
  }

  /** The whole analysis; the metadata comparison enters as its outcome. */
  method AnalyzeTampering(original: Document, submitted: Document, metadataChanged: bool)
    returns (affected: seq<Action>, actionsSeen: set<ChangeType>, primaryType: ChangeType)
    ensures affected == Report(original, submitted)
    ensures actionsSeen == Classes(affected) + if metadataChanged then {MetadataModification} else {}
    ensures primaryType == ComponentInjection <==> exists a :: a in affected && a.status == Added
    ensures primaryType == ComponentRemoval <==>
            (exists a :: a in affected && a.status == Removed) && !exists a :: a in affected && a.status == Added
    ensures primaryType == VersionModification <==> affected != [] && forall a :: a in affected ==> a.status == Modified
    ensures primaryType == MetadataModification <==> affected == [] && metadataChanged
    ensures primaryType == OtherModification <==> affected == [] && !metadataChanged
  {
    affected, actionsSeen := KeyedPasses(original, submitted);
    affected, actionsSeen := PairByName(affected, actionsSeen);
    if metadataChanged {
      actionsSeen := actionsSeen + {MetadataModification};
    }
    primaryType := PrimaryType(actionsSeen);
    PrimaryTypeIff(affected, metadataChanged);
  }

  lemma PrimaryTypeIff(affected: seq<Action>, metadataChanged: bool)
    ensures var primary := PrimaryType(Classes(affected) + if metadataChanged then {MetadataModification} else {});
            && (primary == ComponentInjection <==> exists a :: a in affected && a.status == Added)
            && (primary == ComponentRemoval <==>
                  (exists a :: a in affected && a.status == Removed) && !exists a :: a in affected && a.status == Added)
            && (primary == VersionModification <==> affected != [] && forall a :: a in affected ==> a.status == Modified)
            && (primary == MetadataModification <==> affected == [] && metadataChanged)
            && (primary == OtherModification <==> affected == [] && !metadataChanged)
  {
    ClassesPresent(affected);
  }

  lemma ClassesPresent(actions: seq<Action>)
    ensures ComponentInjection in Classes(actions) <==> exists a :: a in actions && a.status == Added
    ensures ComponentRemoval in Classes(actions) <==> exists a :: a in actions && a.status == Removed
    ensures VersionModification in Classes(actions) <==> exists a :: a in actions && a.status == Modified
    ensures MetadataModification !in Classes(actions) && OtherModification !in Classes(actions)
    ensures actions != [] ==> actions[0] in actions
  {
    forall st: Status ensures ClassOf(st) in Classes(actions) <==> exists a :: a in actions && a.status == st {
      if i :| 0 <= i < |actions| && ClassOf(actions[i].status) == ClassOf(st) {
        assert actions[i] in actions && actions[i].status == st;
      }
      if a :| a in actions && a.status == st {
        var i :| 0 <= i < |actions| && actions[i] == a;
      }
    }
    assert ComponentInjection == ClassOf(Added) && ComponentRemoval == ClassOf(Removed) && VersionModification == ClassOf(Modified);
  }
}

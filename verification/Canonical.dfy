/**
 Canonical forms of JSON trees: the one that SBOM hashes are computed over and the one that snapshot hashes are computed
 over. Both sort the members of every object; the first also normalises strings.
 */
module Canonical {
  import opened Prelude

  /** A number stands as the literal that it is printed as (section 6.1.6.1.20 of ECMA-262). */
  datatype Json = Null | Bool(b: bool) | Num(n: string) | Str(s: string) | Arr(items: seq<Json>) | Obj(members: seq<Member>)

  /** Objects list their members in enumeration order. */
  datatype Member = Member(key: string, value: Json)

  // ---------------------------------------------------------------- key order

  function LexLess(a: string, b: string): bool {
    if b == "" then false
    else if a == "" then true
    else a[0] < b[0] || (a[0] == b[0] && LexLess(a[1..], b[1..]))
  }

  lemma {:induction false} LexTotal(a: string, b: string)
    ensures LexLess(a, b) || LexLess(b, a) || a == b
    ensures !(LexLess(a, b) && LexLess(b, a))
    ensures !LexLess(a, a)
  {
    if a != "" {
      LexTotal(a[1..], a[1..]);
    }
    if a != "" && b != "" && a[0] == b[0] {
      LexTotal(a[1..], b[1..]);
      assert a == [a[0]] + a[1..] && b == [b[0]] + b[1..];
    }
  }

  lemma {:induction false} LexTransitive(a: string, b: string, c: string)
    requires LexLess(a, b) && LexLess(b, c)
    ensures LexLess(a, c)
  {
    if a != "" && a[0] == b[0] == c[0] {
      LexTransitive(a[1..], b[1..], c[1..]);
    }
  }

  lemma DifferAtOnce(a: string, b: string)
    requires a != "" && b != "" && a[0] != b[0]
    ensures forall k :: 0 < k <= |a| && k <= |b| ==> a[..k] != b[..k]
    ensures |a| <= |b| ==> b[..|a|] != a
  {
    forall k | 0 < k <= |a| && k <= |b| ensures a[..k] != b[..k] {
      assert a[..k][0] == a[0] && b[..k][0] == b[0];
    }
    assert |a| <= |b| ==> b[..|a|][0] == b[0];
  }

  /** Code-unit order: the first difference decides, and a text comes before its extensions. */
  lemma {:induction false} LexLessIff(a: string, b: string)
    ensures LexLess(a, b) <==>
            || (|a| < |b| && b[..|a|] == a)
            || exists k :: 0 <= k < |a| && k < |b| && a[..k] == b[..k] && a[k] < b[k]
  {
    if a == "" || b == "" {
      assert b[..0] == "";
    } else {
      LexLessIff(a[1..], b[1..]);
      assert a == [a[0]] + a[1..] && b == [b[0]] + b[1..];
      assert a[..0] == b[..0];
      if a[0] == b[0] {
        assert |a| < |b| ==> (b[..|a|] == a <==> b[1..][..|a| - 1] == a[1..]);
        if k :| 0 <= k < |a| - 1 && k < |b| - 1 && a[1..][..k] == b[1..][..k] && a[1..][k] < b[1..][k] {
          assert a[..k + 1] == [a[0]] + a[1..][..k] && b[..k + 1] == [b[0]] + b[1..][..k];
          assert a[k + 1] < b[k + 1];
        }
        if k :| 0 <= k < |a| && k < |b| && a[..k] == b[..k] && a[k] < b[k] {
          assert a[1..][..k - 1] == a[..k][1..] == b[..k][1..] == b[1..][..k - 1];
          assert a[1..][k - 1] < b[1..][k - 1];
        }
      } else {
        DifferAtOnce(a, b);
      }
    }
  }

  predicate IsDigit(c: char) {
    '0' <= c <= '9'
  }

  function DigitValue(c: char): (d: nat)
    requires IsDigit(c)
    ensures d <= 9 && (d == 0 <==> c == '0')
  {
    c as int - 48
  }

  function Value(digits: string): nat
    requires forall c :: c in digits ==> IsDigit(c)
  {
    if digits == "" then 0
    else
      var c := digits[|digits| - 1];
      assert c in digits;
      10 * Value(digits[..|digits| - 1]) + DigitValue(c)
  }

  /** A key of an array index (section 6.1.7 of ECMA-262): such keys are enumerated first, by value. */
  predicate IsIndex(key: string) {
    && key != "" && (forall c :: c in key ==> IsDigit(c)) && (key == "0" || key[0] != '0')
    && Value(key) < 0xFFFF_FFFF
  }

  lemma {:induction false} ValueIsPositive(digits: string)
    requires digits != "" && (forall c :: c in digits ==> IsDigit(c)) && digits[0] != '0'
    ensures Value(digits) > 0
  {
    if |digits| > 1 {
      ValueIsPositive(digits[..|digits| - 1]);
    } else {
      assert digits[0] in digits;
    }
  }

  /** Numerals without leading zeros are determined by their value. */
  lemma {:induction false} ValueDetermines(a: string, b: string)
    requires forall c :: c in a || c in b ==> IsDigit(c)
    requires (a != "" && a[0] != '0') || a == "" || a == "0"
    requires (b != "" && b[0] != '0') || b == "" || b == "0"
    requires Value(a) == Value(b) && (a == "" <==> b == "")
    ensures a == b
  {
    if a != "" {
      var a', b' := a[..|a| - 1], b[..|b| - 1];
      var x, y := a[|a| - 1], b[|b| - 1];
      assert x in a && y in b;
      assert a == a' + [x] && b == b' + [y];
      assert Value(a') == Value(b') && x == y;
      if a' != "" {
        ValueIsPositive(a');
      }
      if b' != "" {
        ValueIsPositive(b');
      }
      ValueDetermines(a', b');
    }
  }

  /** Enumeration order of an object that was filled in code-unit order. */
  predicate Before(a: string, b: string) {
    if IsIndex(a) then !IsIndex(b) || Value(a) < Value(b)
    else !IsIndex(b) && LexLess(a, b)
  }

  /** The decimal numeral of a number, without leading zeros. */
  function Decimal(i: nat): (s: string)
    ensures s != "" && forall c :: c in s ==> IsDigit(c)
  {
    var last := ['0' + (i % 10) as char];
    if i < 10 then last else Decimal(i / 10) + last
  }

  lemma {:induction false} DecimalValue(i: nat)
    ensures Value(Decimal(i)) == i
    ensures Decimal(i) == "0" || Decimal(i)[0] != '0'
    ensures i > 0 ==> Decimal(i)[0] != '0'
  {
    var s := Decimal(i);
    var last := s[|s| - 1];
    assert last == '0' + (i % 10) as char;
    if i < 10 {
      assert s[..|s| - 1] == "";
      assert i == 0 ==> s == "0";
    } else {
      assert s[..|s| - 1] == Decimal(i / 10);
      DecimalValue(i / 10);
    }
  }

  /** The index keys are the numerals of the numbers below 2^32 - 1. */
  lemma IsIndexIff(key: string)
    ensures IsIndex(key) <==> exists i: nat :: i < 0xFFFF_FFFF && key == Decimal(i)
  {
    if i: nat :| i < 0xFFFF_FFFF && key == Decimal(i) {
      DecimalValue(i);
    }
    if IsIndex(key) {
      var i := Value(key);
      DecimalValue(i);
      ValueDetermines(key, Decimal(i));
    }
  }

  /** The order that object members are enumerated in: indices first and by number, then the other keys as texts. */
  lemma BeforeIff(a: string, b: string)
    ensures Before(a, b) <==>
            || (exists i: nat, j: nat :: i < j < 0xFFFF_FFFF && a == Decimal(i) && b == Decimal(j))
            || ((exists i: nat :: i < 0xFFFF_FFFF && a == Decimal(i)) && !exists j: nat :: j < 0xFFFF_FFFF && b == Decimal(j))
            || ((forall i: nat :: i < 0xFFFF_FFFF ==> a != Decimal(i) && b != Decimal(i)) && LexLess(a, b))
  {
    IsIndexIff(a);
    IsIndexIff(b);
    if i: nat, j: nat :| i < j < 0xFFFF_FFFF && a == Decimal(i) && b == Decimal(j) {
      DecimalValue(i);
      DecimalValue(j);
    }
    if IsIndex(a) && IsIndex(b) {
      var i: nat :| i < 0xFFFF_FFFF && a == Decimal(i);
      var j: nat :| j < 0xFFFF_FFFF && b == Decimal(j);
      DecimalValue(i);
      DecimalValue(j);
    }
  }

  lemma BeforeTotal(a: string, b: string)
    ensures Before(a, b) || Before(b, a) || a == b
    ensures !(Before(a, b) && Before(b, a))
    ensures !Before(a, a)
  {
    LexTotal(a, b);
    LexTotal(a, a);
    if IsIndex(a) && IsIndex(b) && Value(a) == Value(b) {
      ValueDetermines(a, b);
    }
  }

  lemma BeforeTransitive(a: string, b: string, c: string)
    requires Before(a, b) && Before(b, c)
    ensures Before(a, c)
  {
    if !IsIndex(a) {
      LexTransitive(a, b, c);
    }
  }

  // ---------------------------------------------------------------- ordered member lists

  /** Assigning this key sets the prototype and creates no member. */
  const Proto := "__proto__"

  ghost predicate Ascending(ms: seq<Member>) {
    forall i, j :: 0 <= i < j < |ms| ==> Before(ms[i].key, ms[j].key)
  }

  function Place(ms: seq<Member>, m: Member): seq<Member> {
    if ms == [] then [m]
    else if Before(m.key, ms[0].key) then [m] + ms
    else [ms[0]] + Place(ms[1..], m)
  }

  function Ordered(ms: seq<Member>): seq<Member> {
    if ms == [] then []
    else
      var m := ms[|ms| - 1];
      var init := Ordered(ms[..|ms| - 1]);
      if m.key == Proto then init else Place(init, m)
  }

  lemma {:induction false} PlaceHas(ms: seq<Member>, m: Member)
    ensures forall x :: x in Place(ms, m) <==> x in ms || x == m
  {
    if ms != [] {
      PlaceHas(ms[1..], m);
      assert ms == [ms[0]] + ms[1..];
    }
  }

  lemma {:induction false} PlaceAscends(ms: seq<Member>, m: Member)
    requires Ascending(ms) && forall x :: x in ms ==> x.key != m.key
    ensures Ascending(Place(ms, m))
  {
    if ms != [] {
      var head, tail := ms[0], ms[1..];
      BeforeTotal(m.key, head.key);
      assert head in ms;
      if Before(m.key, head.key) {
        forall j | 0 <= j < |ms| ensures Before(m.key, ms[j].key) {
          if j > 0 {
            BeforeTransitive(m.key, head.key, ms[j].key);
          }
        }
      } else {
        PlaceAscends(tail, m);
        PlaceHas(tail, m);
        forall x | x in Place(tail, m) ensures Before(head.key, x.key) {
          if x != m {
            var j :| 0 <= j < |tail| && tail[j] == x;
            assert ms[j + 1] == x;
          }
        }
        HeadBefore(head, Place(tail, m));
      }
    }
  }

  lemma HeadBefore(head: Member, tail: seq<Member>)
    requires Ascending(tail) && forall x :: x in tail ==> Before(head.key, x.key)
    ensures Ascending([head] + tail)
  {
  }

  ghost predicate DistinctKeys(ms: seq<Member>) {
    forall i, j :: 0 <= i < j < |ms| ==> ms[i].key != ms[j].key
  }

  lemma {:induction false} OrderedIsOrdered(ms: seq<Member>)
    requires DistinctKeys(ms)
    ensures Ascending(Ordered(ms))
    ensures forall x :: x in Ordered(ms) <==> x in ms && x.key != Proto
  {
    if ms != [] {
      var init, m := ms[..|ms| - 1], ms[|ms| - 1];
      assert ms == init + [m];
      OrderedIsOrdered(init);
      if m.key != Proto {
        PlaceHas(Ordered(init), m);
        PlaceAscends(Ordered(init), m);
      }
    }
  }

  /** An ascending list is determined by its members. */
  lemma {:induction false} AscendingUnique(ms: seq<Member>, ns: seq<Member>)
    requires Ascending(ms) && Ascending(ns)
    requires forall x :: x in ms <==> x in ns
    ensures ms == ns
  {
    FirstIsIn(ms);
    FirstIsIn(ns);
    if ms != [] {
      assert ms[0] in ns;
      assert ns[0] in ns;
      assert ns[0] in ms;
      SmallestIsFirst(ms, ns[0]);
      SmallestIsFirst(ns, ms[0]);
      BeforeTotal(ms[0].key, ns[0].key);
      TailHas(ms);
      TailHas(ns);
      AscendingUnique(ms[1..], ns[1..]);
      assert ms == [ms[0]] + ms[1..] && ns == [ns[0]] + ns[1..];
    }
  }

  lemma FirstIsIn<T>(xs: seq<T>)
    ensures xs == [] || xs[0] in xs
  {
  }

  lemma SmallestIsFirst(ms: seq<Member>, x: Member)
    requires Ascending(ms) && x in ms
    ensures x == ms[0] || Before(ms[0].key, x.key)
  {
  }

  lemma TailHas(ms: seq<Member>)
    requires Ascending(ms) && ms != []
    ensures Ascending(ms[1..])
    ensures forall x :: x in ms[1..] <==> x in ms && x != ms[0]
  {
    forall x ensures x in ms[1..] <==> x in ms && x != ms[0] {
      BeforeTotal(ms[0].key, ms[0].key);
      assert ms == [ms[0]] + ms[1..];
      if x in ms[1..] {
        var j :| 0 <= j < |ms[1..]| && ms[1..][j] == x;
        assert Before(ms[0].key, ms[j + 1].key);
      }
    }
  }

  // ---------------------------------------------------------------- normal forms

  /** What is done to a string, given whether its key is a timestamp key. */
  type Norm = (bool, string) -> string

  predicate IsTimestampKey(key: string) {
    key == "timestamp" || (|key| >= 9 && key[|key| - 9..] == "Timestamp")
  }

  lemma TimestampKeyIff(key: string)
    ensures IsTimestampKey(key) <==> key == "timestamp" || exists start: string :: key == start + "Timestamp"
  {
    if |key| >= 9 && key[|key| - 9..] == "Timestamp" {
      assert key == key[..|key| - 9] + "Timestamp";
    }
    if start: string :| key == start + "Timestamp" {
      assert key[|key| - 9..] == "Timestamp";
    }
  }

  function Canon(norm: Norm, stamped: bool, v: Json): Json
    decreases v
  {
    match v
    case Str(s) => Str(norm(stamped, s))
    case Arr(items) => Arr(seq(|items|, i requires 0 <= i < |items| => Canon(norm, false, items[i])))
    case Obj(ms) =>
      Obj(Ordered(seq(|ms|, i requires 0 <= i < |ms| => Member(ms[i].key, Canon(norm, IsTimestampKey(ms[i].key), ms[i].value)))))
    case _ => v
  }

  /** The members with canonical values, in their original order. */
  function CanonMembers(norm: Norm, ms: seq<Member>): (cs: seq<Member>)
    ensures |cs| == |ms|
  {
    seq(|ms|, i requires 0 <= i < |ms| => Member(ms[i].key, Canon(norm, IsTimestampKey(ms[i].key), ms[i].value)))
  }

  lemma CanonOfObject(norm: Norm, stamped: bool, ms: seq<Member>)
    ensures Canon(norm, stamped, Obj(ms)) == Obj(Ordered(CanonMembers(norm, ms)))
  {
  }

  /** No object of the tree has a key twice. */
  ghost predicate WellFormed(v: Json) {
    match v
    case Arr(items) => forall i :: 0 <= i < |items| ==> WellFormed(items[i])
    case Obj(ms) => DistinctKeys(ms) && forall i :: 0 <= i < |ms| ==> WellFormed(ms[i].value)
    case _ => true
  }

  ghost predicate HasKey(ms: seq<Member>, key: string) {
    exists i :: 0 <= i < |ms| && ms[i].key == key
  }

  ghost predicate SameKeys(ms: seq<Member>, ns: seq<Member>) {
    forall key :: key != Proto ==> (HasKey(ms, key) <==> HasKey(ns, key))
  }

  /** Equal up to the order of members at every depth, and up to what norm does to strings. */
  ghost predicate Same(norm: Norm, stamped: bool, a: Json, b: Json)
    decreases a
  {
    match a
    case Str(s) => b.Str? && norm(stamped, s) == norm(stamped, b.s)
    case Arr(items) => b.Arr? && |items| == |b.items| && forall i :: 0 <= i < |items| ==> Same(norm, false, items[i], b.items[i])
    case Obj(ms) =>
      && b.Obj? && SameKeys(ms, b.members)
      && forall i, j :: 0 <= i < |ms| && 0 <= j < |b.members| && ms[i].key == b.members[j].key && ms[i].key != Proto ==>
           Same(norm, IsTimestampKey(ms[i].key), ms[i].value, b.members[j].value)
    case _ => a == b
  }

  /** The canonical form is a complete invariant: it identifies exactly the trees that are the same up to order and norm. */
  lemma {:induction false} CanonIffSame(norm: Norm, stamped: bool, a: Json, b: Json)
    requires WellFormed(a) && WellFormed(b)
    ensures Canon(norm, stamped, a) == Canon(norm, stamped, b) <==> Same(norm, stamped, a, b)
    decreases a
  {
    match a
    case Arr(items) =>
      if b.Arr? {
        forall i | 0 <= i < |items| && i < |b.items|
          ensures Canon(norm, false, items[i]) == Canon(norm, false, b.items[i]) <==> Same(norm, false, items[i], b.items[i])
        {
          CanonIffSame(norm, false, items[i], b.items[i]);
        }
        CanonOfArrays(norm, stamped, items, b.items);
      }
    case Obj(ms) =>
      if b.Obj? {
        var ns := b.members;
        forall i, j | 0 <= i < |ms| && 0 <= j < |ns| && ms[i].key == ns[j].key
          ensures Canon(norm, IsTimestampKey(ms[i].key), ms[i].value) == Canon(norm, IsTimestampKey(ms[i].key), ns[j].value) <==>
                  Same(norm, IsTimestampKey(ms[i].key), ms[i].value, ns[j].value)
        {
          CanonIffSame(norm, IsTimestampKey(ms[i].key), ms[i].value, ns[j].value);
        }
        ObjectsIff(norm, stamped, ms, ns);
      }
    case _ =>
  }

  /** The object case: what holds of the values carries over to the objects. */
  lemma ObjectsIff(norm: Norm, stamped: bool, ms: seq<Member>, ns: seq<Member>)
    requires DistinctKeys(ms) && DistinctKeys(ns)
    requires forall i, j :: 0 <= i < |ms| && 0 <= j < |ns| && ms[i].key == ns[j].key ==>
               (Canon(norm, IsTimestampKey(ms[i].key), ms[i].value) == Canon(norm, IsTimestampKey(ms[i].key), ns[j].value) <==>
                Same(norm, IsTimestampKey(ms[i].key), ms[i].value, ns[j].value))
    ensures Canon(norm, stamped, Obj(ms)) == Canon(norm, stamped, Obj(ns)) <==> Same(norm, stamped, Obj(ms), Obj(ns))
  {
    CanonOfObject(norm, stamped, ms);
    CanonOfObject(norm, stamped, ns);
    OrderedEqualIff(CanonMembers(norm, ms), CanonMembers(norm, ns));
    CanonKeepsKeys(norm, ms, ns);
    CanonValuesIff(norm, ms, ns);
    SameObjects(norm, stamped, ms, ns);
  }

  ghost predicate SameMemberValues(norm: Norm, ms: seq<Member>, ns: seq<Member>) {
    forall i, j :: 0 <= i < |ms| && 0 <= j < |ns| && ms[i].key == ns[j].key && ms[i].key != Proto ==>
      Same(norm, IsTimestampKey(ms[i].key), ms[i].value, ns[j].value)
  }

  lemma SameObjects(norm: Norm, stamped: bool, ms: seq<Member>, ns: seq<Member>)
    ensures Same(norm, stamped, Obj(ms), Obj(ns)) <==> SameKeys(ms, ns) && SameMemberValues(norm, ms, ns)
  {
  }

  lemma CanonValuesIff(norm: Norm, ms: seq<Member>, ns: seq<Member>)
    requires forall i, j :: 0 <= i < |ms| && 0 <= j < |ns| && ms[i].key == ns[j].key ==>
               (Canon(norm, IsTimestampKey(ms[i].key), ms[i].value) == Canon(norm, IsTimestampKey(ms[i].key), ns[j].value) <==>
                Same(norm, IsTimestampKey(ms[i].key), ms[i].value, ns[j].value))
    ensures SameValues(CanonMembers(norm, ms), CanonMembers(norm, ns)) <==> SameMemberValues(norm, ms, ns)
  {
    var cs, ds := CanonMembers(norm, ms), CanonMembers(norm, ns);
    forall i, j | 0 <= i < |ms| && 0 <= j < |ns| && ms[i].key == ns[j].key
      ensures cs[i].value == ds[j].value <==> Same(norm, IsTimestampKey(ms[i].key), ms[i].value, ns[j].value)
    {
      assert cs[i] == Member(ms[i].key, Canon(norm, IsTimestampKey(ms[i].key), ms[i].value));
      assert ds[j] == Member(ns[j].key, Canon(norm, IsTimestampKey(ns[j].key), ns[j].value));
    }
  }

  lemma CanonOfArrays(norm: Norm, stamped: bool, xs: seq<Json>, ys: seq<Json>)
    ensures Canon(norm, stamped, Arr(xs)) == Canon(norm, stamped, Arr(ys)) <==>
            |xs| == |ys| && forall i :: 0 <= i < |xs| ==> Canon(norm, false, xs[i]) == Canon(norm, false, ys[i])
  {
    var cx, cy := Canon(norm, stamped, Arr(xs)).items, Canon(norm, stamped, Arr(ys)).items;
    if cx == cy {
      forall i | 0 <= i < |xs| ensures Canon(norm, false, xs[i]) == Canon(norm, false, ys[i]) {
        assert cx[i] == cy[i];
      }
    } else if |xs| == |ys| {
      var i :| 0 <= i < |cx| && cx[i] != cy[i];
    }
  }

  ghost predicate SameValues(ms: seq<Member>, ns: seq<Member>) {
    forall i, j :: 0 <= i < |ms| && 0 <= j < |ns| && ms[i].key == ns[j].key && ms[i].key != Proto ==> ms[i].value == ns[j].value
  }

  lemma CanonKeepsKeys(norm: Norm, ms: seq<Member>, ns: seq<Member>)
    ensures SameKeys(CanonMembers(norm, ms), CanonMembers(norm, ns)) <==> SameKeys(ms, ns)
  {
    forall key ensures HasKey(CanonMembers(norm, ms), key) <==> HasKey(ms, key) {
      KeysOfCanon(norm, ms, key);
    }
    forall key ensures HasKey(CanonMembers(norm, ns), key) <==> HasKey(ns, key) {
      KeysOfCanon(norm, ns, key);
    }
  }

  lemma KeysOfCanon(norm: Norm, ms: seq<Member>, key: string)
    ensures HasKey(CanonMembers(norm, ms), key) <==> HasKey(ms, key)
  {
    var cs := CanonMembers(norm, ms);
    if i :| 0 <= i < |ms| && ms[i].key == key {
      assert cs[i].key == key;
    }
    if i :| 0 <= i < |cs| && cs[i].key == key {
      assert ms[i].key == key;
    }
  }

  lemma OrderedEqualIff(ms: seq<Member>, ns: seq<Member>)
    requires DistinctKeys(ms) && DistinctKeys(ns)
    ensures Ordered(ms) == Ordered(ns) <==> SameKeys(ms, ns) && SameValues(ms, ns)
  {
    OrderedIsOrdered(ms);
    OrderedIsOrdered(ns);
    if Ordered(ms) == Ordered(ns) {
      SameMembers(ms, ns);
    } else if SameKeys(ms, ns) && SameValues(ms, ns) {
      forall x ensures x in Ordered(ms) <==> x in Ordered(ns) {
        if x in ms && x.key != Proto {
          MemberOnOtherSide(ms, ns, x);
        }
        if x in ns && x.key != Proto {
          MemberOnOtherSide(ns, ms, x);
        }
      }
      AscendingUnique(Ordered(ms), Ordered(ns));
    }
  }

  lemma MemberOnOtherSide(ms: seq<Member>, ns: seq<Member>, x: Member)
    requires SameKeys(ms, ns) && SameValues(ms, ns) && x in ms && x.key != Proto
    ensures x in ns
  {
    var i :| 0 <= i < |ms| && ms[i] == x;
    assert HasKey(ms, x.key);
    var j :| 0 <= j < |ns| && ns[j].key == x.key;
    assert ns[j] == x;
  }

  lemma SameMembers(ms: seq<Member>, ns: seq<Member>)
    requires DistinctKeys(ms) && DistinctKeys(ns)
    requires forall x: Member :: x.key != Proto ==> (x in ms <==> x in ns)
    ensures SameKeys(ms, ns) && SameValues(ms, ns)
  {
    forall key | key != Proto ensures HasKey(ms, key) <==> HasKey(ns, key) {
      if i :| 0 <= i < |ms| && ms[i].key == key {
        assert ms[i] in ns;
      }
      if i :| 0 <= i < |ns| && ns[i].key == key {
        assert ns[i] in ms;
      }
    }
    forall i, j | 0 <= i < |ms| && 0 <= j < |ns| && ms[i].key == ns[j].key && ms[i].key != Proto ensures ms[i].value == ns[j].value {
      assert ms[i] in ns;
      var j' :| 0 <= j' < |ns| && ns[j'] == ms[i];
    }
  }

  // ---------------------------------------------------------------- consequences

  ghost predicate Idempotent(norm: Norm) {
    forall stamped, s :: norm(stamped, norm(stamped, s)) == norm(stamped, s)
  }

  lemma OrderedKeepsAll(norm: Norm, ms: seq<Member>)
    requires DistinctKeys(ms)
    ensures forall x :: x in Ordered(CanonMembers(norm, ms)) <==> x in CanonMembers(norm, ms) && x.key != Proto
    ensures DistinctKeys(Ordered(CanonMembers(norm, ms)))
  {
    var cs := CanonMembers(norm, ms);
    OrderedIsOrdered(cs);
    forall i, j | 0 <= i < j < |Ordered(cs)| ensures Ordered(cs)[i].key != Ordered(cs)[j].key {
      BeforeTotal(Ordered(cs)[i].key, Ordered(cs)[j].key);
      BeforeTotal(Ordered(cs)[i].key, Ordered(cs)[i].key);
    }
  }

  /** The canonical form is well formed and is the same tree. */
  lemma {:induction false} CanonIsSame(norm: Norm, stamped: bool, v: Json)
    requires WellFormed(v) && Idempotent(norm)
    ensures WellFormed(Canon(norm, stamped, v))
    ensures Same(norm, stamped, Canon(norm, stamped, v), v)
    decreases v
  {
    match v
    case Arr(items) =>
      forall i | 0 <= i < |items|
        ensures WellFormed(Canon(norm, false, items[i])) && Same(norm, false, Canon(norm, false, items[i]), items[i])
      {
        CanonIsSame(norm, false, items[i]);
      }
    case Obj(ms) =>
      var cs := CanonMembers(norm, ms);
      var os := Ordered(cs);
      OrderedKeepsAll(norm, ms);
      CanonOfObject(norm, stamped, ms);
      forall i | 0 <= i < |ms|
        ensures WellFormed(cs[i].value) && Same(norm, IsTimestampKey(ms[i].key), cs[i].value, ms[i].value)
      {
        CanonIsSame(norm, IsTimestampKey(ms[i].key), ms[i].value);
      }
      SameMembersAsCanon(norm, ms);
    case _ =>
  }

  lemma SameMembersAsCanon(norm: Norm, ms: seq<Member>)
    requires DistinctKeys(ms)
    ensures var os := Ordered(CanonMembers(norm, ms));
            && SameKeys(os, ms)
            && (forall i :: 0 <= i < |os| ==> os[i] in CanonMembers(norm, ms))
            && forall i, j :: 0 <= i < |os| && 0 <= j < |ms| && os[i].key == ms[j].key ==> os[i] == CanonMembers(norm, ms)[j]
  {
    OrderedKeepsAll(norm, ms);
    assert DistinctKeys(CanonMembers(norm, ms));
    PartOf(Ordered(CanonMembers(norm, ms)), CanonMembers(norm, ms));
    forall key ensures HasKey(CanonMembers(norm, ms), key) <==> HasKey(ms, key) {
      KeysOfCanon(norm, ms, key);
    }
    KeysStayInPlace(norm, ms);
  }

  lemma KeysStayInPlace(norm: Norm, ms: seq<Member>)
    ensures forall j :: 0 <= j < |ms| ==> CanonMembers(norm, ms)[j].key == ms[j].key
  {
  }

  /** A list of the members of another one, save those named __proto__. */
  lemma PartOf(os: seq<Member>, cs: seq<Member>)
    requires DistinctKeys(cs) && forall x :: x in os <==> x in cs && x.key != Proto
    ensures SameKeys(os, cs)
    ensures forall i :: 0 <= i < |os| ==> os[i] in cs
    ensures forall i, j :: 0 <= i < |os| && 0 <= j < |cs| && os[i].key == cs[j].key ==> os[i] == cs[j]
  {
    forall i | 0 <= i < |os| ensures os[i] in cs {
      assert os[i] in os;
    }
    forall key | key != Proto ensures HasKey(os, key) <==> HasKey(cs, key) {
      PartHasKey(os, cs, key);
    }
    forall i, j | 0 <= i < |os| && 0 <= j < |cs| && os[i].key == cs[j].key ensures os[i] == cs[j] {
      var j' :| 0 <= j' < |cs| && cs[j'] == os[i];
    }
  }

  lemma PartHasKey(os: seq<Member>, cs: seq<Member>, key: string)
    requires key != Proto && forall x :: x in os <==> x in cs && x.key != Proto
    ensures HasKey(os, key) <==> HasKey(cs, key)
  {
    if j :| 0 <= j < |cs| && cs[j].key == key {
      assert cs[j] in os;
    }
    if i :| 0 <= i < |os| && os[i].key == key {
      assert os[i] in cs;
    }
  }

  /** Canonicalising twice changes nothing more. */
  lemma CanonIdempotent(norm: Norm, stamped: bool, v: Json)
    requires WellFormed(v) && Idempotent(norm)
    ensures Canon(norm, stamped, Canon(norm, stamped, v)) == Canon(norm, stamped, v)
  {
    CanonIsSame(norm, stamped, v);
    CanonIffSame(norm, stamped, Canon(norm, stamped, v), v);
  }

  function Verbatim(): Norm {
    (stamped, s) => s
  }

  /** Equal up to the order of members at every depth and nothing else. */
  ghost predicate Reordered(a: Json, b: Json) {
    Same(Verbatim(), false, a, b)
  }

  lemma {:induction false} ReorderedIsSame(norm: Norm, st: bool, st': bool, a: Json, b: Json)
    requires Same(Verbatim(), st, a, b)
    ensures Same(norm, st', a, b)
    decreases a
  {
    match a
    case Arr(items) =>
      forall i | 0 <= i < |items| ensures Same(norm, false, items[i], b.items[i]) {
        ReorderedIsSame(norm, false, false, items[i], b.items[i]);
      }
    case Obj(ms) =>
      forall i, j | 0 <= i < |ms| && 0 <= j < |b.members| && ms[i].key == b.members[j].key && ms[i].key != Proto
        ensures Same(norm, IsTimestampKey(ms[i].key), ms[i].value, b.members[j].value)
      {
        ReorderedIsSame(norm, IsTimestampKey(ms[i].key), IsTimestampKey(ms[i].key), ms[i].value, b.members[j].value);
      }
    case _ =>
  }

  /** Reordering members, at any depth, is invisible. */
  lemma ReorderingInvisible(norm: Norm, a: Json, b: Json)
    requires WellFormed(a) && WellFormed(b) && Reordered(a, b)
    ensures Canon(norm, false, a) == Canon(norm, false, b)
  {
    ReorderedIsSame(norm, false, false, a, b);
    CanonIffSame(norm, false, a, b);
  }
}

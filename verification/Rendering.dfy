/**
 A text form of JSON trees that reads back. It is not the library's, but it shows that what is assumed of text and date
 libraries can be met, all of it at once.
 */
module Rendering {
  import opened Prelude
  import opened Canonical
  import opened Text
  import opened Integrity

  function Quote(s: string): (q: string)
    ensures q != "" && q[|q| - 1] == '.'
  {
    if s == "" then "." else "c" + ([s[0]] + Quote(s[1..]))
  }

  predicate Opens(c: char) {
    c == 'z' || c == 't' || c == 'f' || c == 'n' || c == 's' || c == '[' || c == '{'
  }

  predicate Closes(c: char) {
    c == 'z' || c == 't' || c == 'f' || c == '.' || c == ']' || c == '}'
  }

  function Render(v: Json): (s: string)
    ensures s != "" && Opens(s[0]) && Closes(s[|s| - 1])
    decreases v, 1, 0
  {
    match v
    case Null => "z"
    case Bool(b) => if b then "t" else "f"
    case Num(n) => "n" + Quote(n)
    case Str(s) => "s" + Quote(s)
    case Arr(_) => "[" + RenderItems(v, 0)
    case Obj(_) => "{" + RenderMembers(v, 0)
  }

  function RenderItems(v: Json, i: nat): (s: string)
    requires v.Arr? && i <= |v.items|
    ensures s != "" && Closes(s[|s| - 1])
    decreases v, 0, |v.items| - i
  {
    if i == |v.items| then "]" else "," + (Render(v.items[i]) + RenderItems(v, i + 1))
  }

  function RenderMembers(v: Json, i: nat): (s: string)
    requires v.Obj? && i <= |v.members|
    ensures s != "" && Closes(s[|s| - 1])
    decreases v, 0, |v.members| - i
  {
    if i == |v.members| then "}"
    else "," + (Quote(v.members[i].key) + (Render(v.members[i].value) + RenderMembers(v, i + 1)))
  }

  lemma Regroup(s: string, t: string, x: string)
    ensures (s + t) + x == s + (t + x)
  {
  }

  lemma SameHead(c: char, s: string, d: char, t: string)
    requires [c] + s == [d] + t
    ensures c == d && s == t
  {
    assert ([c] + s)[0] == c && ([d] + t)[0] == d;
    assert ([c] + s)[1..] == s && ([d] + t)[1..] == t;
  }

  /** No quoted text begins another one: what follows it is determined as well. */
  lemma {:induction false} QuoteSeparates(a: string, b: string, x: string, y: string)
    requires Quote(a) + x == Quote(b) + y
    ensures a == b && x == y
  {
    assert Quote(a)[0] == (Quote(a) + x)[0] && Quote(b)[0] == (Quote(b) + y)[0];
    if a == "" {
      SameHead('.', x, '.', y);
    } else {
      assert a == [a[0]] + a[1..] && b == [b[0]] + b[1..];
      Unquote(a, x);
      Unquote(b, y);
      SameHead('c', [a[0]] + (Quote(a[1..]) + x), 'c', [b[0]] + (Quote(b[1..]) + y));
      SameHead(a[0], Quote(a[1..]) + x, b[0], Quote(b[1..]) + y);
      QuoteSeparates(a[1..], b[1..], x, y);
    }
  }

  lemma Unquote(a: string, x: string)
    requires a != ""
    ensures Quote(a) + x == ['c'] + ([a[0]] + (Quote(a[1..]) + x))
  {
    Regroup("c", [a[0]] + Quote(a[1..]), x);
    Regroup([a[0]], Quote(a[1..]), x);
  }

  /** No rendered tree begins another one. */
  lemma {:induction false} RenderSeparates(a: Json, b: Json, x: string, y: string)
    requires Render(a) + x == Render(b) + y
    ensures a == b && x == y
    decreases a, 1, 0
  {
    assert Render(a)[0] == (Render(a) + x)[0] && Render(b)[0] == (Render(b) + y)[0];
    match a
    case Null => SameHead('z', x, 'z', y);
    case Bool(_) => SameHead(Render(a)[0], x, Render(b)[0], y);
    case Num(n) =>
      Regroup("n", Quote(n), x);
      Regroup("n", Quote(b.n), y);
      SameHead('n', Quote(n) + x, 'n', Quote(b.n) + y);
      QuoteSeparates(n, b.n, x, y);
    case Str(s) =>
      Regroup("s", Quote(s), x);
      Regroup("s", Quote(b.s), y);
      SameHead('s', Quote(s) + x, 's', Quote(b.s) + y);
      QuoteSeparates(s, b.s, x, y);
    case Arr(_) =>
      Regroup("[", RenderItems(a, 0), x);
      Regroup("[", RenderItems(b, 0), y);
      SameHead('[', RenderItems(a, 0) + x, '[', RenderItems(b, 0) + y);
      ItemsSeparate(a, b, 0, x, y);
    case Obj(_) =>
      Regroup("{", RenderMembers(a, 0), x);
      Regroup("{", RenderMembers(b, 0), y);
      SameHead('{', RenderMembers(a, 0) + x, '{', RenderMembers(b, 0) + y);
      MembersSeparate(a, b, 0, x, y);
  }

  lemma {:induction false} ItemsSeparate(a: Json, b: Json, i: nat, x: string, y: string)
    requires a.Arr? && b.Arr? && i <= |a.items| && i <= |b.items|
    requires RenderItems(a, i) + x == RenderItems(b, i) + y
    ensures a.items[i..] == b.items[i..] && x == y
    decreases a, 0, |a.items| - i
  {
    assert RenderItems(a, i)[0] == (RenderItems(a, i) + x)[0] && RenderItems(b, i)[0] == (RenderItems(b, i) + y)[0];
    if i == |a.items| {
      SameHead(']', x, ']', y);
    } else {
      UnrollItems(a, i, x);
      UnrollItems(b, i, y);
      SameHead(',', Render(a.items[i]) + (RenderItems(a, i + 1) + x), ',', Render(b.items[i]) + (RenderItems(b, i + 1) + y));
      RenderSeparates(a.items[i], b.items[i], RenderItems(a, i + 1) + x, RenderItems(b, i + 1) + y);
      ItemsSeparate(a, b, i + 1, x, y);
      FromIndex(a.items, i);
      FromIndex(b.items, i);
    }
  }

  lemma FromIndex<T>(xs: seq<T>, i: nat)
    requires i < |xs|
    ensures xs[i..] == [xs[i]] + xs[i + 1..]
  {
  }

  lemma UnrollItems(a: Json, i: nat, x: string)
    requires a.Arr? && i < |a.items|
    ensures RenderItems(a, i) + x == [','] + (Render(a.items[i]) + (RenderItems(a, i + 1) + x))
  {
    Regroup(",", Render(a.items[i]) + RenderItems(a, i + 1), x);
    Regroup(Render(a.items[i]), RenderItems(a, i + 1), x);
  }

  lemma {:induction false} MembersSeparate(a: Json, b: Json, i: nat, x: string, y: string)
    requires a.Obj? && b.Obj? && i <= |a.members| && i <= |b.members|
    requires RenderMembers(a, i) + x == RenderMembers(b, i) + y
    ensures a.members[i..] == b.members[i..] && x == y
    decreases a, 0, |a.members| - i
  {
    assert RenderMembers(a, i)[0] == (RenderMembers(a, i) + x)[0] && RenderMembers(b, i)[0] == (RenderMembers(b, i) + y)[0];
    if i == |a.members| {
      SameHead('}', x, '}', y);
    } else {
      var m, n := a.members[i], b.members[i];
      UnrollMembers(a, i, x);
      UnrollMembers(b, i, y);
      var restA, restB := Render(m.value) + (RenderMembers(a, i + 1) + x), Render(n.value) + (RenderMembers(b, i + 1) + y);
      SameHead(',', Quote(m.key) + restA, ',', Quote(n.key) + restB);
      QuoteSeparates(m.key, n.key, restA, restB);
      RenderSeparates(m.value, n.value, RenderMembers(a, i + 1) + x, RenderMembers(b, i + 1) + y);
      MembersSeparate(a, b, i + 1, x, y);
      FromIndex(a.members, i);
      FromIndex(b.members, i);
    }
  }

  lemma UnrollMembers(a: Json, i: nat, x: string)
    requires a.Obj? && i < |a.members|
    ensures RenderMembers(a, i) + x ==
            [','] + (Quote(a.members[i].key) + (Render(a.members[i].value) + (RenderMembers(a, i + 1) + x)))
  {
    var q, r, t := Quote(a.members[i].key), Render(a.members[i].value), RenderMembers(a, i + 1);
    Regroup(",", q + (r + t), x);
    Regroup(q, r + t, x);
    Regroup(r, t, x);
  }

  lemma RenderIsInjective(a: Json, b: Json)
    requires Render(a) == Render(b)
    ensures a == b
  {
    assert Render(a) + "" == Render(a) && Render(b) + "" == Render(b);
    RenderSeparates(a, b, "", "");
  }

  /** The reader that goes with it, for trees without duplicate keys. */
  ghost function Read(s: string): Option<Json> {
    if exists v :: WellFormed(v) && Render(v) == s then var v :| WellFormed(v) && Render(v) == s; Some(v) else None
  }

  lemma RenderedIsTrimmed(v: Json)
    ensures Trim(Render(v)) == Render(v)
  {
    var s := Render(v);
    IsVisible(s[0]);
    IsVisible(s[|s| - 1]);
    NothingToTrim(s);
  }

  lemma IsVisible(c: char)
    ensures Opens(c) || Closes(c) ==> !IsSpace(c)
  {
  }

  lemma RenderedReadsBack(v: Json)
    requires WellFormed(v)
    ensures Read(Trim(Render(v))) == Some(v)
  {
    RenderedIsTrimmed(v);
    ReadsRendered(v, Render(v));
  }

  lemma ReadsRendered(v: Json, s: string)
    requires WellFormed(v) && Render(v) == s
    ensures Read(s) == Some(v)
  {
    forall w | Render(w) == s ensures w == v {
      RenderIsInjective(w, v);
    }
  }

  ghost function SampleTexts(): Texts {
    Texts(Read, Render, (s: string) => s)
  }

  function SampleDates(): Dates {
    Dates((s: string) => if s == "T" then Some(0) else None, (t: int) => "T")
  }

  lemma SampleTextsKeepPromises()
    ensures ParsesWell(SampleTexts())
    ensures forall v :: WellFormed(v) ==> ReadsBack(SampleTexts(), v)
    ensures forall s, t :: SampleTexts().digest(s) == SampleTexts().digest(t) ==> s == t
  {
    forall v | WellFormed(v) ensures ReadsBack(SampleTexts(), v) {
      RenderedReadsBack(v);
    }
  }

  lemma SampleHashesAreNotEmpty(dates: Dates, v: Json)
    ensures HashOf(dates, SampleTexts(), v) != ""
  {
    RenderedIsTrimmed(Canon(Normalize(dates), false, v));
  }

  lemma SampleDatesAreLawful()
    ensures Lawful(SampleDates()) && SampleDates().parse("T").Some?
  {
    OneLetterIsTrimmed();
    forall s | SampleDates().parse(s).Some?
      ensures SampleDates().parse(SampleDates().render(SampleDates().parse(s).value)) == SampleDates().parse(s)
    {
    }
  }

  lemma OneLetterIsTrimmed()
    ensures Trim("T") == "T"
  {
    NothingToTrim("T");
  }

  /** Dates and texts that keep every promise asked of them anywhere, with a digest that never collides. */
  lemma LibrariesExist() returns (dates: Dates, texts: Texts)
    ensures Lawful(dates) && dates.parse("T").Some? && ParsesWell(texts)
    ensures forall v :: WellFormed(v) ==> ReadsBack(texts, v)
    ensures forall s, t :: texts.digest(s) == texts.digest(t) ==> s == t
    ensures forall v :: HashOf(dates, texts, v) != ""
  {
    dates, texts := SampleDates(), SampleTexts();
    SampleDatesAreLawful();
    SampleTextsKeepPromises();
    forall v ensures HashOf(dates, texts, v) != "" {
      SampleHashesAreNotEmpty(dates, v);
    }
  }
}

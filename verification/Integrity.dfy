/**
 SBOM canonicalisation as the code performs it, the integrity check built on it, and the snapshot hash input.
 Date parsing, JSON parsing and printing and the hash function are parameters.
 */
module Integrity {
  import opened Prelude
  import opened Canonical
  import opened Text
  import L = LedgerModel
  import R = LedgerRuns

  // ---------------------------------------------------------------- strings

  /** Dates: parsing may fail, printing gives the ISO form. */
  datatype Dates = Dates(parse: string -> Option<int>, render: int -> string)

  /** An instant that was read prints as a text that reads back as the same instant and has no white space around it. */
  ghost predicate Lawful(dates: Dates) {
    forall s :: dates.parse(s).Some? ==>
      var text := dates.render(dates.parse(s).value);
      dates.parse(text) == dates.parse(s) && Trim(text) == text
  }

  function Normalize(dates: Dates): Norm {
    (stamped: bool, s: string) =>
      var trimmed := Trim(s);
      if stamped && dates.parse(trimmed).Some? then dates.render(dates.parse(trimmed).value) else trimmed
  }

  lemma NormalizeIdempotent(dates: Dates)
    requires Lawful(dates)
    ensures Idempotent(Normalize(dates))
  {
    forall stamped: bool, s: string ensures Normalize(dates)(stamped, Normalize(dates)(stamped, s)) == Normalize(dates)(stamped, s) {
      TrimTwice(s);
      var trimmed := Trim(s);
      if stamped && dates.parse(trimmed).Some? {
        var t := dates.parse(trimmed).value;
        assert Normalize(dates)(stamped, s) == dates.render(t);
        assert dates.parse(dates.render(t)) == dates.parse(trimmed) && Trim(dates.render(t)) == dates.render(t);
      } else {
        assert Normalize(dates)(stamped, s) == trimmed;
      }
    }
  }

  /** Two texts become one exactly when they differ in outer white space only or, under a timestamp key, name one instant. */
  lemma NormalizeAlikeIff(dates: Dates, stamped: bool, s: string, t: string)
    requires Lawful(dates)
    ensures Normalize(dates)(stamped, s) == Normalize(dates)(stamped, t) <==>
            || Trim(s) == Trim(t)
            || (stamped && dates.parse(Trim(s)).Some? && dates.parse(Trim(s)) == dates.parse(Trim(t)))
  {
    var x, y := dates.parse(Trim(s)), dates.parse(Trim(t));
    if x.Some? {
      assert dates.parse(dates.render(x.value)) == x;
    }
    if y.Some? {
      assert dates.parse(dates.render(y.value)) == y;
    }
  }

  /** One document in two notations: key order, outer white space, the notation of instants and `__proto__` are all that may differ. */
  ghost predicate OneDocument(dates: Dates, stamped: bool, a: Json, b: Json)
    decreases a
  {
    match a
    case Str(s) =>
      && b.Str?
      && (Trim(s) == Trim(b.s) || (stamped && dates.parse(Trim(s)).Some? && dates.parse(Trim(s)) == dates.parse(Trim(b.s))))
    case Arr(items) =>
      b.Arr? && |items| == |b.items| && forall i :: 0 <= i < |items| ==> OneDocument(dates, false, items[i], b.items[i])
    case Obj(ms) =>
      && b.Obj?
      && (forall key :: key != "__proto__" ==> (HasKey(ms, key) <==> HasKey(b.members, key)))
      && forall i, j :: 0 <= i < |ms| && 0 <= j < |b.members| && ms[i].key == b.members[j].key && ms[i].key != "__proto__" ==>
           OneDocument(dates, IsTimestampKey(ms[i].key), ms[i].value, b.members[j].value)
    case _ => a == b
  }

  lemma {:induction false} OneDocumentIffSame(dates: Dates, stamped: bool, a: Json, b: Json)
    requires Lawful(dates)
    ensures OneDocument(dates, stamped, a, b) <==> Same(Normalize(dates), stamped, a, b)
    decreases a
  {
    match a
    case Str(s) =>
      if b.Str? {
        NormalizeAlikeIff(dates, stamped, s, b.s);
      }
    case Arr(items) =>
      if b.Arr? && |items| == |b.items| {
        forall i | 0 <= i < |items|
          ensures OneDocument(dates, false, items[i], b.items[i]) <==> Same(Normalize(dates), false, items[i], b.items[i])
        {
          OneDocumentIffSame(dates, false, items[i], b.items[i]);
        }
      }
    case Obj(ms) =>
      if b.Obj? {
        var ns := b.members;
        forall i, j | 0 <= i < |ms| && 0 <= j < |ns| && ms[i].key == ns[j].key && ms[i].key != Proto
          ensures OneDocument(dates, IsTimestampKey(ms[i].key), ms[i].value, ns[j].value) <==>
                  Same(Normalize(dates), IsTimestampKey(ms[i].key), ms[i].value, ns[j].value)
        {
          OneDocumentIffSame(dates, IsTimestampKey(ms[i].key), ms[i].value, ns[j].value);
        }
        SameObjects(Normalize(dates), stamped, ms, ns);
      }
    case _ =>
  }

  /** What canonicalisation identifies, said without its normal form. */
  lemma CanonIffOneDocument(dates: Dates, a: Json, b: Json)
    requires Lawful(dates) && WellFormed(a) && WellFormed(b)
    ensures Canon(Normalize(dates), false, a) == Canon(Normalize(dates), false, b) <==> OneDocument(dates, false, a, b)
  {
    CanonIffSame(Normalize(dates), false, a, b);
    OneDocumentIffSame(dates, false, a, b);
  }

  lemma SameForOneDocument(dates: Dates, a: Json)
    requires Lawful(dates) && WellFormed(a)
    ensures forall b :: WellFormed(b) && OneDocument(dates, false, a, b) ==> Canon(Normalize(dates), false, a) == Canon(Normalize(dates), false, b)
  {
    forall b | WellFormed(b) && OneDocument(dates, false, a, b) ensures Canon(Normalize(dates), false, a) == Canon(Normalize(dates), false, b) {
      CanonIffOneDocument(dates, a, b);
    }
  }

  // ---------------------------------------------------------------- the code

  /** The position of an array item is never a timestamp key. */
  lemma PositionIsNoTimestampKey(i: nat)
    ensures !IsTimestampKey(Decimal(i))
  {
    var s := Decimal(i);
    assert s[|s| - 1] in s;
    if |s| >= 9 {
      assert s[|s| - 9..][8] == s[|s| - 1];
      assert "Timestamp"[8] == 'p';
    }
    assert "timestamp"[|"timestamp"| - 1] == 'p';
  }

  method CanonicalizeValue(dates: Dates, key: string, value: Json) returns (r: Json)
    requires WellFormed(value)
    ensures r == Canon(Normalize(dates), IsTimestampKey(key), value)
    ensures value.Str? && (key == "timestamp" || exists start: string :: key == start + "Timestamp") && dates.parse(Trim(value.s)).Some? ==>
              r == Str(dates.render(dates.parse(Trim(value.s)).value))
    ensures value.Str? && (dates.parse(Trim(value.s)).None? || !(key == "timestamp" || exists start: string :: key == start + "Timestamp")) ==>
              r == Str(Trim(value.s))
    ensures value.Null? || value.Bool? || value.Num? ==> r == value
    decreases value, 1
  {
    TimestampKeyIff(key);
    match value {
      case Null => return value;
      case Bool(_) => return value;
      case Num(_) => return value;
      case Str(s) =>
        var trimmed := Trim(s);
        if IsTimestampKey(key) && dates.parse(trimmed).Some? {
          return Str(dates.render(dates.parse(trimmed).value));
        }
        return Str(trimmed);
      case Arr(items) =>
        r := CanonicalizeItems(dates, value, items);
      case Obj(ms) =>
        r := CanonicalizeObject(dates, value, ms);
        CanonOfObject(Normalize(dates), IsTimestampKey(key), ms);
    }
  }

  method CanonicalizeItems(dates: Dates, value: Json, items: seq<Json>) returns (r: Json)
    requires value == Arr(items) && WellFormed(value)
    ensures r == Canon(Normalize(dates), false, value)
    decreases value, 0
  {
    var results: seq<Json> := [];
    var i := 0;
    while i < |items|
      invariant 0 <= i <= |items|
      invariant |results| == i && forall j :: 0 <= j < i ==> results[j] == Canon(Normalize(dates), false, items[j])
    {
      PositionIsNoTimestampKey(i);
      assert WellFormed(items[i]);
      var item := CanonicalizeValue(dates, Decimal(i), value.items[i]);
      results := results + [item];
      i := i + 1;
    }
    r := Arr(results);
    assert r.items == Canon(Normalize(dates), false, value).items;
  }

  /** Keys in code-unit order, as the array sort leaves them. */
  function SortedKeys(keys: seq<string>): (sorted: seq<string>)
    ensures |sorted| == |keys|
    ensures forall k :: k in sorted <==> k in keys
  {
    if keys == [] then []
    else
      assert keys == keys[..|keys| - 1] + [keys[|keys| - 1]];
      InsertKey(SortedKeys(keys[..|keys| - 1]), keys[|keys| - 1])
  }

  function InsertKey(sorted: seq<string>, k: string): (r: seq<string>)
    ensures |r| == |sorted| + 1
    ensures forall x :: x in r <==> x in sorted || x == k
  {
    if sorted == [] then [k]
    else if LexLess(k, sorted[0]) then [k] + sorted
    else
      assert sorted == [sorted[0]] + sorted[1..];
      [sorted[0]] + InsertKey(sorted[1..], k)
  }

  ghost predicate LexAscending(keys: seq<string>) {
    forall i, j :: 0 <= i < j < |keys| ==> LexLess(keys[i], keys[j])
  }

  lemma {:induction false} InsertKeyAscends(sorted: seq<string>, k: string)
    requires LexAscending(sorted) && k !in sorted
    ensures LexAscending(InsertKey(sorted, k))
  {
    if sorted != [] {
      LexTotal(k, sorted[0]);
      if LexLess(k, sorted[0]) {
        forall j | 0 <= j < |sorted| ensures LexLess(k, sorted[j]) {
          if j > 0 {
            LexTransitive(k, sorted[0], sorted[j]);
          }
        }
      } else {
        InsertKeyAscends(sorted[1..], k);
        var tail := InsertKey(sorted[1..], k);
        forall x | x in tail ensures LexLess(sorted[0], x) {
          if x != k {
            var j :| 0 <= j < |sorted[1..]| && sorted[1..][j] == x;
            assert sorted[j + 1] == x;
          }
        }
      }
    }
  }

  lemma {:induction false} SortedKeysAscend(keys: seq<string>)
    requires Distinct(keys)
    ensures LexAscending(SortedKeys(keys))
  {
    if keys != [] {
      SortedKeysAscend(keys[..|keys| - 1]);
      InsertKeyAscends(SortedKeys(keys[..|keys| - 1]), keys[|keys| - 1]);
    }
  }

  function KeyOf(m: Member): string { m.key }

  function IndexOfKey(ms: seq<Member>, key: string): (i: nat)
    requires key in Map(ms, KeyOf)
    ensures i < |ms| && ms[i].key == key
  {
    assert Map(ms, KeyOf)[0] == ms[0].key;
    if ms[0].key == key then 0
    else
      assert key in Map(ms[1..], KeyOf) by {
        var j :| 0 <= j < |ms| && Map(ms, KeyOf)[j] == key;
        assert Map(ms[1..], KeyOf)[j - 1] == key;
      }
      1 + IndexOfKey(ms[1..], key)
  }

  /** Assignment of a new own member: index keys are kept in front, by value; other keys go to the end. */
  function SetMember(ms: seq<Member>, m: Member): seq<Member> {
    if m.key == Proto then ms
    else if IsIndex(m.key) then Place(ms, m)
    else ms + [m]
  }

  lemma AppendAscends(ms: seq<Member>, m: Member)
    requires Ascending(ms) && forall x :: x in ms ==> Before(x.key, m.key)
    ensures Ascending(ms + [m])
  {
    forall i | 0 <= i < |ms| ensures Before(ms[i].key, m.key) {
      assert ms[i] in ms;
    }
  }

  /** An assignment in code-unit order keeps the enumeration order. */
  lemma SetMemberAscends(ms: seq<Member>, m: Member)
    requires Ascending(ms) && forall x :: x in ms ==> LexLess(x.key, m.key)
    ensures Ascending(SetMember(ms, m))
    ensures forall x :: x in SetMember(ms, m) <==> x in ms || (x == m && m.key != Proto)
  {
    LexTotal(m.key, m.key);
    if IsIndex(m.key) && m.key != Proto {
      PlaceHas(ms, m);
      PlaceAscends(ms, m);
    } else if m.key != Proto {
      AppendAscends(ms, m);
    }
  }

  /** What the object loop has built from the canonical members cs after the sorted keys `done`. */
  ghost predicate Built(result: seq<Member>, cs: seq<Member>, done: seq<string>) {
    && Ascending(result)
    && (forall x :: x in result <==> x in cs && x.key != Proto && x.key in done)
  }

  lemma OnlyOneWithKey(cs: seq<Member>, i: nat, x: Member)
    requires DistinctKeys(cs) && i < |cs| && x in cs && x.key == cs[i].key
    ensures x == cs[i]
  {
    var j :| 0 <= j < |cs| && cs[j] == x;
  }

  lemma BuiltStep(result: seq<Member>, cs: seq<Member>, done: seq<string>, i: nat)
    requires DistinctKeys(cs) && i < |cs| && Built(result, cs, done)
    requires forall k :: k in done ==> LexLess(k, cs[i].key)
    ensures Built(SetMember(result, cs[i]), cs, done + [cs[i].key])
  {
    SetMemberAscends(result, cs[i]);
    var r, done' := SetMember(result, cs[i]), done + [cs[i].key];
    assert cs[i] in cs;
    forall x ensures x in r <==> x in cs && x.key != Proto && x.key in done' {
      assert x.key in done' <==> x.key in done || x.key == cs[i].key;
      if x in cs && x.key == cs[i].key {
        OnlyOneWithKey(cs, i, x);
      }
    }
  }

  lemma BuiltIsOrdered(result: seq<Member>, cs: seq<Member>, done: seq<string>)
    requires DistinctKeys(cs) && Built(result, cs, done)
    requires forall x :: x in cs ==> x.key in done
    ensures result == Ordered(cs)
  {
    OrderedIsOrdered(cs);
    forall x ensures x in result <==> x in Ordered(cs) {
    }
    AscendingUnique(result, Ordered(cs));
  }

  lemma AllKeysDone(norm: Norm, ms: seq<Member>, done: seq<string>)
    requires forall k :: k in done <==> k in Map(ms, KeyOf)
    ensures forall x :: x in CanonMembers(norm, ms) ==> x.key in done
  {
    forall x | x in CanonMembers(norm, ms) ensures x.key in done {
      var j :| 0 <= j < |ms| && CanonMembers(norm, ms)[j] == x;
      assert Map(ms, KeyOf)[j] == KeyOf(ms[j]) == x.key;
      assert x.key in Map(ms, KeyOf);
    }
  }

  lemma DistinctKeyList(ms: seq<Member>)
    requires DistinctKeys(ms)
    ensures Distinct(Map(ms, KeyOf))
  {
    forall i, j | 0 <= i < j < |ms| ensures Map(ms, KeyOf)[i] != Map(ms, KeyOf)[j] {
      assert Map(ms, KeyOf)[i] == ms[i].key && Map(ms, KeyOf)[j] == ms[j].key;
    }
  }

  method CanonicalizeObject(dates: Dates, value: Json, ms: seq<Member>) returns (r: Json)
    requires value == Obj(ms) && WellFormed(value)
    ensures r == Obj(Ordered(CanonMembers(Normalize(dates), ms)))
    decreases value, 0
  {
    var norm := Normalize(dates);
    DistinctKeyList(ms);
    SortedKeysAscend(Map(ms, KeyOf));
    var keys := SortedKeys(Map(ms, KeyOf));
    ghost var cs := CanonMembers(norm, ms);
    assert DistinctKeys(cs);
    var result: seq<Member> := [];
    var i := 0;
    while i < |keys|
      invariant 0 <= i <= |keys|
      invariant Built(result, cs, keys[..i])
    {
      var k := keys[i];
      assert k in keys;
      var at := IndexOfKey(ms, k);
      assert WellFormed(ms[at].value);
      var v := CanonicalizeValue(dates, k, value.members[at].value);
      assert cs[at] == Member(k, v);
      BuiltStep(result, cs, keys[..i], at);
      result := SetMember(result, Member(k, v));
      TakeSnoc(keys, i);
      i := i + 1;
    }
    assert keys[..i] == keys;
    AllKeysDone(norm, ms, keys);
    BuiltIsOrdered(result, cs, keys);
    return Obj(result);
  }

  // ---------------------------------------------------------------- canonicalizeSBOM and hashSBOM

  datatype Input = Missing | Given(v: Json)

  datatype SbomError = Required | NotJson | NotText

  /** The text libraries: JSON parsing, JSON printing, the digest of a text. */
  datatype Texts = Texts(parse: string -> Option<Json>, render: Json -> string, digest: string -> string)

  /** Parsing keeps one member per key. */
  ghost predicate ParsesWell(texts: Texts) {
    forall s :: texts.parse(s).Some? ==> WellFormed(texts.parse(s).value)
  }

  function OnlyDocument(v: Json): Result<Json, SbomError> {
    if v.Obj? || v.Arr? then Ok(v) else Err(NotJson)
  }

  /** The tree that an input stands for. */
  function DocumentOf(texts: Texts, input: Input): Result<Json, SbomError> {
    match input
    case Missing => Err(Required)
    case Given(v) =>
      if v.Null? then Err(Required)
      else if v.Str? then
        if Trim(v.s) == "" then Err(Required)
        else if texts.parse(Trim(v.s)).None? then Err(NotJson)
        else OnlyDocument(texts.parse(Trim(v.s)).value)
      else OnlyDocument(v)
  }

  /** The printed canonical tree of the document, or why there is none. */
  function CanonicalForm(dates: Dates, texts: Texts, input: Input): Result<string, SbomError> {
    match DocumentOf(texts, input)
    case Err(e) => Err(e)
    case Ok(v) => Ok(texts.render(Canon(Normalize(dates), false, v)))
  }

  /** Which inputs have a canonical form. */
  lemma CanonicalFormIff(dates: Dates, texts: Texts, input: Input)
    requires ParsesWell(texts) && (input.Given? ==> WellFormed(input.v))
    ensures var r := CanonicalForm(dates, texts, input);
            && (r == Err(Required) <==> input.Missing? || input.v.Null? || (input.v.Str? && Trim(input.v.s) == ""))
            && (r.Ok? <==>
                  && input.Given?
                  && var v := if input.v.Str? && Trim(input.v.s) != "" then texts.parse(Trim(input.v.s)) else Some(input.v);
                     v.Some? && (v.value.Obj? || v.value.Arr?))
  {
  }

  /** Every notation of one document has the same. */
  lemma OneFormPerDocument(dates: Dates, texts: Texts, input: Input)
    requires ParsesWell(texts) && (input.Given? ==> WellFormed(input.v)) && Lawful(dates) && DocumentOf(texts, input).Ok?
    ensures forall other :: WellFormed(other) && OneDocument(dates, false, DocumentOf(texts, input).value, other) ==>
              CanonicalForm(dates, texts, input) == Ok(texts.render(Canon(Normalize(dates), false, other)))
  {
    DocumentIsWellFormed(texts, input);
    SameForOneDocument(dates, DocumentOf(texts, input).value);
  }

  method CanonicalizeSBOM(dates: Dates, texts: Texts, input: Input) returns (r: Result<string, SbomError>)
    requires ParsesWell(texts) && (input.Given? ==> WellFormed(input.v))
    ensures r == CanonicalForm(dates, texts, input)
    ensures r == Err(Required) <==> input.Missing? || input.v.Null? || (input.v.Str? && Trim(input.v.s) == "")
    ensures r.Ok? <==>
            && input.Given?
            && var v := if input.v.Str? && Trim(input.v.s) != "" then texts.parse(Trim(input.v.s)) else Some(input.v);
               v.Some? && (v.value.Obj? || v.value.Arr?)
    ensures Lawful(dates) && r.Ok? ==>
            forall other :: WellFormed(other) && OneDocument(dates, false, DocumentOf(texts, input).value, other) ==>
              r == Ok(texts.render(Canon(Normalize(dates), false, other)))
  {
    CanonicalFormIff(dates, texts, input);
    if Lawful(dates) && DocumentOf(texts, input).Ok? {
      OneFormPerDocument(dates, texts, input);
    }
    var document := ParseSBOM(texts, input);
    if document.Err? {
      return Err(document.error);
    }
    var parsed := document.value;
    DocumentIsWellFormed(texts, input);
    var canonical: Json;
    if parsed.Arr? {
      canonical := CanonicalizeItems(dates, parsed, parsed.items);
    } else {
      canonical := CanonicalizeObject(dates, parsed, parsed.members);
      CanonOfObject(Normalize(dates), false, parsed.members);
    }
    return Ok(texts.render(canonical));
  }

  lemma DocumentIsWellFormed(texts: Texts, input: Input)
    requires ParsesWell(texts) && (input.Given? ==> WellFormed(input.v)) && DocumentOf(texts, input).Ok?
    ensures WellFormed(DocumentOf(texts, input).value)
    ensures DocumentOf(texts, input).value.Obj? || DocumentOf(texts, input).value.Arr?
  {
    if input.v.Str? {
      var text := Trim(input.v.s);
      assert texts.parse(text).Some? && WellFormed(texts.parse(text).value);
    }
  }

  method ParseSBOM(texts: Texts, input: Input) returns (r: Result<Json, SbomError>)
    ensures r == DocumentOf(texts, input)
  {
    if input.Missing? || input.v.Null? {
      return Err(Required);
    }
    var parsed := input.v;
    if parsed.Str? {
      var trimmed := Trim(parsed.s);
      if trimmed == "" {
        return Err(Required);
      }
      if texts.parse(trimmed).None? {
        return Err(NotJson);
      }
      parsed := texts.parse(trimmed).value;
    }
    if !parsed.Obj? && !parsed.Arr? {
      return Err(NotJson);
    }
    return Ok(parsed);
  }

  /** The canonical text that is hashed. */
  function CanonicalText(dates: Dates, texts: Texts, v: Json): string {
    Trim(texts.render(Canon(Normalize(dates), false, v)))
  }

  /** hashSBOM of the canonical text. */
  function HashOf(dates: Dates, texts: Texts, v: Json): string {
    texts.digest(CanonicalText(dates, texts, v))
  }

  method HashSBOM(texts: Texts, input: Input) returns (r: Result<string, SbomError>)
    ensures r == Err(Required) <==> input.Missing? || input.v.Null? || (input.v.Str? && Trim(input.v.s) == "")
    ensures r == Err(NotText) <==> input.Given? && !input.v.Null? && !input.v.Str?
    ensures r.Ok? <==> input.Given? && input.v.Str? && Trim(input.v.s) != ""
    ensures r.Ok? ==> r.value == texts.digest(Trim(input.v.s))
  {
    if input.Missing? || input.v.Null? {
      return Err(Required);
    }
    if !input.v.Str? {
      return Err(NotText);
    }
    var normalized := Trim(input.v.s);
    if normalized == "" {
      return Err(Required);
    }
    return Ok(texts.digest(normalized));
  }

  /** Canonicalise, then hash: what a submission and an integrity check do with a document. */
  method HashDocument(dates: Dates, texts: Texts, document: Json) returns (r: Result<string, SbomError>)
    requires ParsesWell(texts) && WellFormed(document) && (document.Obj? || document.Arr?)
    ensures CanonicalText(dates, texts, document) != "" ==> r == Ok(HashOf(dates, texts, document))
    ensures CanonicalText(dates, texts, document) == "" ==> r == Err(Required)
  {
    var text := CanonicalizeSBOM(dates, texts, Given(document));
    assert DocumentOf(texts, Given(document)) == Ok(document);
    r := HashSBOM(texts, Given(Str(text.value)));
  }

  // ---------------------------------------------------------------- the integrity check

  /** The tree is read back from its printed text. */
  ghost predicate ReadsBack(texts: Texts, v: Json) {
    texts.parse(Trim(texts.render(v))) == Some(v)
  }

  /** An unmodified document passes whatever the store did to the order of its keys; no library needs to be trusted for that. */
  lemma StoredDocumentHashesAlike(dates: Dates, texts: Texts, submitted: Json, stored: Json)
    requires WellFormed(submitted) && WellFormed(stored) && Reordered(submitted, stored)
    ensures HashOf(dates, texts, submitted) == HashOf(dates, texts, stored)
  {
    ReorderingInvisible(Normalize(dates), submitted, stored);
  }

  /**
   At any later time, with any transactions in between, the integrity check of a stored document against the ledger
   passes exactly when the stored document is the submitted one up to key order, trimming, timestamp notation and members
   named __proto__. Assumed of the libraries: the two canonical trees at hand read back, and their two texts do not
   collide.
   */
  lemma IntegrityPassesIff(dates: Dates, texts: Texts, before: seq<R.Call>, ctx: L.Context, id: string, o: L.Origin,
                           after: seq<R.Call>, submitted: Json, stored: Json)
    requires WellFormed(submitted) && WellFormed(stored)
    requires ReadsBack(texts, Canon(Normalize(dates), false, submitted)) && ReadsBack(texts, Canon(Normalize(dates), false, stored))
    requires var x, y := CanonicalText(dates, texts, submitted), CanonicalText(dates, texts, stored);
             texts.digest(x) == texts.digest(y) ==> x == y
    requires o.hash == HashOf(dates, texts, submitted) && HashOf(dates, texts, stored) != ""
    requires L.ReplyTo(R.Reached(before), ctx, L.Submit(id, o)).Ok?
    ensures var later := R.Reached(before + [R.Call(ctx, L.Submit(id, o))] + after);
            var verdict := L.VerifyIntegrity(later, id, HashOf(dates, texts, stored));
            && verdict.Ok? && (verdict.value.matches <==> Same(Normalize(dates), false, submitted, stored))
            && (Lawful(dates) ==> (verdict.value.matches <==> OneDocument(dates, false, submitted, stored)))
  {
    if Lawful(dates) {
      OneDocumentIffSame(dates, false, submitted, stored);
    }
    R.IntegrityComparesWithSubmission(before, ctx, id, o, after, HashOf(dates, texts, stored));
    CanonIffSame(Normalize(dates), false, submitted, stored);
  }

  /** Canonicalising the canonical text changes nothing, given that this text reads back as it was printed. */
  lemma CanonicalTextIsStable(dates: Dates, texts: Texts, v: Json)
    requires WellFormed(v) && Lawful(dates)
    requires ReadsBack(texts, Canon(Normalize(dates), false, v))
    ensures texts.parse(CanonicalText(dates, texts, v)).Some?
    ensures CanonicalText(dates, texts, texts.parse(CanonicalText(dates, texts, v)).value) == CanonicalText(dates, texts, v)
  {
    NormalizeIdempotent(dates);
    CanonIdempotent(Normalize(dates), false, v);
  }

  /** Exception to the rule that only order and notation are lost: a member named __proto__ disappears altogether. */
  lemma ProtoMemberIsLost(norm: Norm, v: Json)
    ensures Canon(norm, false, Obj([Member(Proto, v)])) == Canon(norm, false, Obj([]))
  {
    var ms := [Member(Proto, v)];
    CanonOfObject(norm, false, ms);
    CanonOfObject(norm, false, []);
    assert CanonMembers(norm, ms)[..0] == [];
    assert Ordered([]) == [];
    assert CanonMembers(norm, []) == [];
  }

  // ---------------------------------------------------------------- snapshots

  function Dropped(ms: seq<Member>, keys: set<string>): seq<Member> {
    if ms == [] then []
    else
      var rest := Dropped(ms[..|ms| - 1], keys);
      if ms[|ms| - 1].key in keys then rest else rest + [ms[|ms| - 1]]
  }

  const Transient := {"snapshotId", "decisionId", "evaluatedAt"}

  function WithoutTransition(m: Member): Member {
    if m.key == "evidenceSummaries" && m.value.Obj? then Member(m.key, Obj(Dropped(m.value.members, {"transitionMetadata"})))
    else m
  }

  /** The payload members that enter the snapshot hash. */
  function Hashed(payload: seq<Member>): seq<Member> {
    Map(Dropped(payload, Transient), WithoutTransition)
  }

  /** The tree that is printed and hashed; members are put in order, strings are left alone. */
  function HashInput(payload: seq<Member>): Json {
    Canon(Verbatim(), false, Obj(Hashed(payload)))
  }

  lemma {:induction false} DroppedHas(ms: seq<Member>, keys: set<string>)
    ensures forall x :: x in Dropped(ms, keys) <==> x in ms && x.key !in keys
    ensures DistinctKeys(ms) ==> DistinctKeys(Dropped(ms, keys))
  {
    if ms != [] {
      assert ms == ms[..|ms| - 1] + [ms[|ms| - 1]];
      DroppedHas(ms[..|ms| - 1], keys);
    }
  }

  lemma DroppedIsWellFormed(ms: seq<Member>, keys: set<string>)
    requires WellFormed(Obj(ms))
    ensures WellFormed(Obj(Dropped(ms, keys)))
  {
    DroppedHas(ms, keys);
    forall i | 0 <= i < |Dropped(ms, keys)| ensures WellFormed(Dropped(ms, keys)[i].value) {
      assert Dropped(ms, keys)[i] in ms;
    }
  }

  lemma HashedIsWellFormed(payload: seq<Member>)
    requires WellFormed(Obj(payload))
    ensures WellFormed(Obj(Hashed(payload)))
  {
    var ms, hs := Dropped(payload, Transient), Hashed(payload);
    DroppedIsWellFormed(payload, Transient);
    forall i | 0 <= i < |ms| ensures WellFormed(hs[i].value) && hs[i].key == ms[i].key {
      assert hs[i] == WithoutTransition(ms[i]);
      assert WellFormed(ms[i].value);
      WithoutTransitionWellFormed(ms[i]);
    }
  }

  /** Equal up to key order apart from the ids, the evaluation time and the transition metadata. */
  ghost predicate PayloadsAlike(p: seq<Member>, q: seq<Member>) {
    var ids := {"snapshotId", "decisionId", "evaluatedAt"};
    && (forall key :: key !in ids && key != "__proto__" ==> (HasKey(p, key) <==> HasKey(q, key)))
    && forall i, j :: 0 <= i < |p| && 0 <= j < |q| && p[i].key == q[j].key && p[i].key !in ids && p[i].key != "__proto__" ==>
         if p[i].key == "evidenceSummaries" && p[i].value.Obj? && q[j].value.Obj? then
           SummariesAlike(p[i].value.members, q[j].value.members)
         else
           Reordered(p[i].value, q[j].value)
  }

  ghost predicate SummariesAlike(ms: seq<Member>, ns: seq<Member>) {
    var gone := "transitionMetadata";
    && (forall key :: key != gone && key != "__proto__" ==> (HasKey(ms, key) <==> HasKey(ns, key)))
    && forall i, j :: 0 <= i < |ms| && 0 <= j < |ns| && ms[i].key == ns[j].key && ms[i].key != gone && ms[i].key != "__proto__" ==>
         Reordered(ms[i].value, ns[j].value)
  }

  lemma DroppedKeys(ms: seq<Member>, keys: set<string>, key: string)
    ensures HasKey(Dropped(ms, keys), key) <==> HasKey(ms, key) && key !in keys
  {
    DroppedHas(ms, keys);
    if a :| 0 <= a < |Dropped(ms, keys)| && Dropped(ms, keys)[a].key == key {
      assert Dropped(ms, keys)[a] in ms;
    }
    if i :| 0 <= i < |ms| && ms[i].key == key && key !in keys {
      assert ms[i] in Dropped(ms, keys);
    }
  }

  ghost predicate AlikeOutside(ms: seq<Member>, ns: seq<Member>, keys: set<string>) {
    && (forall key :: key !in keys && key != Proto ==> (HasKey(ms, key) <==> HasKey(ns, key)))
    && forall x, y :: x in ms && y in ns && x.key == y.key && x.key !in keys && x.key != Proto ==> Reordered(x.value, y.value)
  }

  lemma AlikeOutsideNothing(ms: seq<Member>, ns: seq<Member>)
    ensures AlikeOutside(ms, ns, {}) <==> Reordered(Obj(ms), Obj(ns))
  {
    SameObjects(Verbatim(), false, ms, ns);
    if AlikeOutside(ms, ns, {}) {
      forall i, j | 0 <= i < |ms| && 0 <= j < |ns| && ms[i].key == ns[j].key && ms[i].key != Proto
        ensures Same(Verbatim(), IsTimestampKey(ms[i].key), ms[i].value, ns[j].value)
      {
        assert ms[i] in ms && ns[j] in ns;
        ReorderedIsSame(Verbatim(), false, IsTimestampKey(ms[i].key), ms[i].value, ns[j].value);
      }
    }
    if SameMemberValues(Verbatim(), ms, ns) {
      forall x, y | x in ms && y in ns && x.key == y.key && x.key != Proto ensures Reordered(x.value, y.value) {
        var i :| 0 <= i < |ms| && ms[i] == x;
        var j :| 0 <= j < |ns| && ns[j] == y;
        ReorderedIsSame(Verbatim(), IsTimestampKey(x.key), false, x.value, y.value);
      }
    }
  }

  /** Dropping the members of some keys leaves the rest to be compared. */
  lemma DroppedAlikeIff(ms: seq<Member>, ns: seq<Member>, keys: set<string>)
    ensures Reordered(Obj(Dropped(ms, keys)), Obj(Dropped(ns, keys))) <==> AlikeOutside(ms, ns, keys)
  {
    AlikeOutsideNothing(Dropped(ms, keys), Dropped(ns, keys));
    DroppedHas(ms, keys);
    DroppedHas(ns, keys);
    forall key
      ensures HasKey(Dropped(ms, keys), key) <==> HasKey(ms, key) && key !in keys
      ensures HasKey(Dropped(ns, keys), key) <==> HasKey(ns, key) && key !in keys
    {
      DroppedKeys(ms, keys, key);
      DroppedKeys(ns, keys, key);
    }
  }

  lemma SummariesAlikeOutside(ms: seq<Member>, ns: seq<Member>)
    ensures SummariesAlike(ms, ns) <==> AlikeOutside(ms, ns, {"transitionMetadata"})
  {
    if SummariesAlike(ms, ns) {
      forall x, y | x in ms && y in ns && x.key == y.key && x.key != "transitionMetadata" && x.key != Proto ensures Reordered(x.value, y.value) {
        var i :| 0 <= i < |ms| && ms[i] == x;
        var j :| 0 <= j < |ns| && ns[j] == y;
      }
    }
  }

  /** The transition metadata is all that is taken out of an evidence summary. */
  lemma SummariesAlikeIff(ms: seq<Member>, ns: seq<Member>)
    ensures SummariesAlike(ms, ns) <==>
            Reordered(WithoutTransition(Member("evidenceSummaries", Obj(ms))).value, WithoutTransition(Member("evidenceSummaries", Obj(ns))).value)
  {
    DroppedAlikeIff(ms, ns, {"transitionMetadata"});
    SummariesAlikeOutside(ms, ns);
  }

  lemma PayloadsAlikeIff(p: seq<Member>, q: seq<Member>)
    ensures PayloadsAlike(p, q) <==> HashedAlike(p, q)
  {
    forall i, j | 0 <= i < |p| && 0 <= j < |q| && p[i].key == q[j].key && p[i].key !in Transient
      ensures Reordered(WithoutTransition(p[i]).value, WithoutTransition(q[j]).value) <==>
              if p[i].key == "evidenceSummaries" && p[i].value.Obj? && q[j].value.Obj? then
                SummariesAlike(p[i].value.members, q[j].value.members)
              else
                Reordered(p[i].value, q[j].value)
    {
      if p[i].key == "evidenceSummaries" && p[i].value.Obj? && q[j].value.Obj? {
        SummariesAlikeIff(p[i].value.members, q[j].value.members);
        assert p[i] == Member("evidenceSummaries", Obj(p[i].value.members));
        assert q[j] == Member("evidenceSummaries", Obj(q[j].value.members));
      }
    }
  }

  ghost predicate HashedAlike(p: seq<Member>, q: seq<Member>) {
    && (forall key :: key !in Transient && key != Proto ==> (HasKey(p, key) <==> HasKey(q, key)))
    && forall i, j :: 0 <= i < |p| && 0 <= j < |q| && p[i].key == q[j].key && p[i].key !in Transient && p[i].key != Proto ==>
         Reordered(WithoutTransition(p[i]).value, WithoutTransition(q[j]).value)
  }

  lemma HashedAt(p: seq<Member>, i: nat) returns (a: nat)
    requires i < |p| && p[i].key !in Transient
    ensures a < |Hashed(p)| && Hashed(p)[a] == WithoutTransition(p[i])
  {
    var ms := Dropped(p, Transient);
    DroppedHas(p, Transient);
    assert p[i] in ms;
    a :| 0 <= a < |ms| && ms[a] == p[i];
  }

  lemma HashedFrom(p: seq<Member>, a: nat) returns (i: nat)
    requires a < |Hashed(p)|
    ensures i < |p| && p[i].key !in Transient && Hashed(p)[a] == WithoutTransition(p[i])
  {
    var ms := Dropped(p, Transient);
    DroppedHas(p, Transient);
    assert ms[a] in ms;
    i :| 0 <= i < |p| && p[i] == ms[a];
  }

  lemma HashedKeys(p: seq<Member>, key: string)
    ensures HasKey(Hashed(p), key) <==> HasKey(p, key) && key !in Transient
  {
    if a :| 0 <= a < |Hashed(p)| && Hashed(p)[a].key == key {
      var i := HashedFrom(p, a);
      assert p[i].key == key;
    }
    if i :| 0 <= i < |p| && p[i].key == key && key !in Transient {
      var a := HashedAt(p, i);
      assert Hashed(p)[a].key == key;
    }
  }

  lemma AlikeIffReordered(p: seq<Member>, q: seq<Member>)
    ensures HashedAlike(p, q) <==> Reordered(Obj(Hashed(p)), Obj(Hashed(q)))
  {
    var hp, hq := Hashed(p), Hashed(q);
    forall key ensures (HasKey(hp, key) <==> HasKey(p, key) && key !in Transient) && (HasKey(hq, key) <==> HasKey(q, key) && key !in Transient) {
      HashedKeys(p, key);
      HashedKeys(q, key);
    }
    SameObjects(Verbatim(), false, hp, hq);
    if HashedAlike(p, q) {
      forall a, b | 0 <= a < |hp| && 0 <= b < |hq| && hp[a].key == hq[b].key && hp[a].key != Proto
        ensures Same(Verbatim(), IsTimestampKey(hp[a].key), hp[a].value, hq[b].value)
      {
        var i := HashedFrom(p, a);
        var j := HashedFrom(q, b);
        ReorderedIsSame(Verbatim(), false, IsTimestampKey(hp[a].key), hp[a].value, hq[b].value);
      }
    }
    if SameKeys(hp, hq) && SameMemberValues(Verbatim(), hp, hq) {
      forall i, j | 0 <= i < |p| && 0 <= j < |q| && p[i].key == q[j].key && p[i].key !in Transient && p[i].key != Proto
        ensures Reordered(WithoutTransition(p[i]).value, WithoutTransition(q[j]).value)
      {
        var a := HashedAt(p, i);
        var b := HashedAt(q, j);
        ReorderedIsSame(Verbatim(), IsTimestampKey(hp[a].key), false, hp[a].value, hq[b].value);
      }
    }
  }

  /** Two payloads get the same hash input exactly when they are alike. */
  lemma SnapshotInputIff(p: seq<Member>, q: seq<Member>)
    requires WellFormed(Obj(p)) && WellFormed(Obj(q))
    ensures HashInput(p) == HashInput(q) <==> PayloadsAlike(p, q)
  {
    HashedIsWellFormed(p);
    HashedIsWellFormed(q);
    CanonIffSame(Verbatim(), false, Obj(Hashed(p)), Obj(Hashed(q)));
    AlikeIffReordered(p, q);
    PayloadsAlikeIff(p, q);
  }

  lemma AlikeItself(v: Json)
    requires WellFormed(v)
    ensures Reordered(v, v)
  {
    CanonIffSame(Verbatim(), false, v, v);
  }

  /** In particular the snapshot and decision ids and the evaluation time may differ, come or go. */
  lemma TransientMembersIgnored(p: seq<Member>, q: seq<Member>)
    requires WellFormed(Obj(p)) && WellFormed(Obj(q))
    requires forall x: Member :: x.key !in {"snapshotId", "decisionId", "evaluatedAt"} ==> (x in p <==> x in q)
    ensures HashInput(p) == HashInput(q)
  {
    forall key | key !in Transient ensures HasKey(p, key) <==> HasKey(q, key) {
      if i :| 0 <= i < |p| && p[i].key == key {
        assert p[i] in q;
      }
      if j :| 0 <= j < |q| && q[j].key == key {
        assert q[j] in p;
      }
    }
    forall i, j | 0 <= i < |p| && 0 <= j < |q| && p[i].key == q[j].key && p[i].key !in Transient
      ensures Reordered(WithoutTransition(p[i]).value, WithoutTransition(q[j]).value)
    {
      assert p[i] in q;
      var j' :| 0 <= j' < |q| && q[j'] == p[i];
      assert j' == j;
      assert WellFormed(p[i].value);
      WithoutTransitionWellFormed(p[i]);
      AlikeItself(WithoutTransition(p[i]).value);
    }
    PayloadsAlikeIff(p, q);
    SnapshotInputIff(p, q);
  }

  /** And the transition metadata inside the evidence summary may. */
  lemma ReevaluationKeepsSnapshotInput(p: seq<Member>, k: nat, summary: seq<Member>, summary': seq<Member>)
    requires k < |p| && p[k] == Member("evidenceSummaries", Obj(summary))
    requires WellFormed(Obj(p)) && WellFormed(Obj(summary'))
    requires forall x: Member :: x.key != "transitionMetadata" ==> (x in summary <==> x in summary')
    ensures HashInput(p) == HashInput(p[k := Member("evidenceSummaries", Obj(summary'))])
  {
    var q := p[k := Member("evidenceSummaries", Obj(summary'))];
    var drop := {"transitionMetadata"};
    forall key ensures HasKey(p, key) <==> HasKey(q, key) {
      assert forall i :: 0 <= i < |p| ==> p[i].key == q[i].key;
    }
    assert WellFormed(p[k].value);
    DroppedHas(summary, drop);
    DroppedHas(summary', drop);
    DroppedIsWellFormed(summary, drop);
    DroppedIsWellFormed(summary', drop);
    SameMembersSame(Dropped(summary, drop), Dropped(summary', drop));
    forall i, j | 0 <= i < |p| && 0 <= j < |q| && p[i].key == q[j].key
      ensures Reordered(WithoutTransition(p[i]).value, WithoutTransition(q[j]).value)
    {
      assert i == j;
      if i != k {
        WithoutTransitionWellFormed(p[i]);
        AlikeItself(WithoutTransition(p[i]).value);
      }
    }
    PayloadsAlikeIff(p, q);
    SnapshotInputIff(p, q);
  }

  lemma WithoutTransitionWellFormed(m: Member)
    requires WellFormed(m.value)
    ensures WellFormed(WithoutTransition(m).value)
  {
    if m.key == "evidenceSummaries" && m.value.Obj? {
      DroppedIsWellFormed(m.value.members, {"transitionMetadata"});
    }
  }

  lemma SameMembersSame(ms: seq<Member>, ns: seq<Member>)
    requires WellFormed(Obj(ms)) && WellFormed(Obj(ns)) && forall x: Member :: x in ms <==> x in ns
    ensures Reordered(Obj(ms), Obj(ns))
  {
    SameMembers(ms, ns);
    SameObjects(Verbatim(), false, ms, ns);
    forall i, j | 0 <= i < |ms| && 0 <= j < |ns| && ms[i].key == ns[j].key && ms[i].key != Proto
      ensures Same(Verbatim(), IsTimestampKey(ms[i].key), ms[i].value, ns[j].value)
    {
      AlikeItself(ms[i].value);
      ReorderedIsSame(Verbatim(), false, IsTimestampKey(ms[i].key), ms[i].value, ns[j].value);
    }
  }
}

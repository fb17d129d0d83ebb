/**
 Judging a VEX document: which statements count, which of them decides, and what the reader is told when none counts.
 One clock reading serves the whole evaluation.
 */
module Vex {
  import opened Prelude
  import opened StableSort

  /** A date field: missing, unreadable, or an instant in milliseconds. */
  datatype Stamp = Absent | Malformed | At(ms: int)

  datatype VexStatus = Affected | UnderInvestigation | Fixed | NotAffected | NoStatus | Unrecognised(text: string)

  datatype Product = Product(id: string, hashes: seq<string>)

  datatype Statement = Statement(
    timestamp: Stamp, expiresAt: Stamp, vulnerabilityIds: seq<string>, products: seq<Product>, status: VexStatus,
    justification: string, impactStatement: string)

  /** Empty strings stand for fields that are not given. */
  datatype Target = Target(vulnerabilityId: string, productIdentifier: string, digest: string)

  datatype Policy = Policy(
    allowedClockSkewSeconds: nat, maxOverlayValidityDays: nat, expiryRequired: bool, allowedJustifications: seq<string>,
    requireImpactStatement: bool)

  /** The reason code VEX-0nn. */
  datatype Code = VEX(nn: nat)

  datatype Blocking = NON_BLOCKING | REVIEW_REQUIRED | BLOCKING

  datatype Verdict = Verdict(isValid: bool, code: Code, blocking: Blocking, authoritative: bool, chosen: Option<Statement>)

  /** A zero in the policy means the default, as for a missing field. */
  function SkewMs(policy: Policy): int {
    1000 * if policy.allowedClockSkewSeconds == 0 then 600 else policy.allowedClockSkewSeconds
  }

  function MaxAgeMs(policy: Policy): int {
    86_400_000 * if policy.maxOverlayValidityDays == 0 then 365 else policy.maxOverlayValidityDays
  }

  function StampOf(s: Statement, global: Stamp): Stamp {
    if s.timestamp.Absent? then global else s.timestamp
  }

  // ---------------------------------------------------------------- what is wrong with a statement

  predicate StampWrong(s: Statement, global: Stamp, policy: Policy, now: int) {
    match StampOf(s, global)
    case At(issued) => issued > now + SkewMs(policy) || now - issued > MaxAgeMs(policy)
    case _ => true
  }

  /** The comparison of a bad issue date with the expiry is false, of a missing one it is with the epoch. */
  predicate ExpiryWrong(s: Statement, global: Stamp, policy: Policy, now: int) {
    match s.expiresAt
    case Absent => policy.expiryRequired
    case Malformed => true
    case At(exp) =>
      || exp < now
      || match StampOf(s, global)
         case At(issued) => exp <= issued
         case Absent => exp <= 0
         case Malformed => false
  }

  function ProductId(p: Product): string { p.id }

  predicate ProductMatches(s: Statement, target: Target) {
    target.productIdentifier == "" || target.productIdentifier in Map(s.products, ProductId)
  }

  predicate VulnerabilityMatches(s: Statement, target: Target) {
    target.vulnerabilityId == "" || target.vulnerabilityId in s.vulnerabilityIds
  }

  predicate DigestMatches(s: Statement, target: Target) {
    target.digest == "" || exists i :: 0 <= i < |s.products| && target.digest in s.products[i].hashes
  }

  predicate ScopeWrong(s: Statement, target: Option<Target>) {
    target.Some? && (!VulnerabilityMatches(s, target.value) || !ProductMatches(s, target.value))
  }

  predicate DigestWrong(s: Statement, target: Option<Target>) {
    target.Some? && !DigestMatches(s, target.value)
  }

  // ---------------------------------------------------------------- the filter

  /** The checks of the filter loop, in its order, each skipping the statement. */
  method Passes(s: Statement, global: Stamp, policy: Policy, target: Option<Target>, now: int) returns (ok: bool)
    ensures ok <==> Accepted(s, global, policy, target, now)
  {
    var tStamp := if s.timestamp == Absent then global else s.timestamp;
    if !tStamp.At? { return false; }
    var issuedAt := tStamp.ms;
    if issuedAt > now + SkewMs(policy) { return false; }
    if now - issuedAt > MaxAgeMs(policy) { return false; }
    if policy.expiryRequired && s.expiresAt.Absent? { return false; }
    if !s.expiresAt.Absent? {
      if s.expiresAt.Malformed? || s.expiresAt.ms <= issuedAt || s.expiresAt.ms < now { return false; }
    }
    if target.Some? {
      var t := target.value;
      if t.vulnerabilityId != "" && t.vulnerabilityId !in s.vulnerabilityIds { return false; }
      if t.productIdentifier != "" {
        var matchedProd := FindProduct(s.products, t.productIdentifier);
        if !matchedProd { return false; }
      }
      if t.digest != "" {
        var digestMatched := FindDigest(s.products, t.digest);
        if !digestMatched { return false; }
      }
    }
    return true;
  }

  method FindProduct(products: seq<Product>, id: string) returns (found: bool)
    ensures found <==> id in Map(products, ProductId)
  {
    Listed(products, id);
    var i := 0;
    while i < |products|
      invariant 0 <= i <= |products|
      invariant forall j :: 0 <= j < i ==> products[j].id != id
    {
      if products[i].id == id {
        return true;
      }
      i := i + 1;
    }
    return false;
  }

  lemma Listed(products: seq<Product>, id: string)
    ensures id in Map(products, ProductId) <==> exists i :: 0 <= i < |products| && products[i].id == id
  {
    var ids := Map(products, ProductId);
    assert forall i :: 0 <= i < |products| ==> ids[i] == ProductId(products[i]);
  }

  method FindDigest(products: seq<Product>, digest: string) returns (found: bool)
    ensures found <==> exists i :: 0 <= i < |products| && digest in products[i].hashes
  {
    found := false;
    var i := 0;
    while i < |products|
      invariant 0 <= i <= |products|
      invariant found <==> exists j :: 0 <= j < i && digest in products[j].hashes
    {
      if digest in products[i].hashes {
        found := true;
      }
      i := i + 1;
    }
  }

  /** A statement counts when nothing is wrong with it: the filter and the later diagnosis look for the same faults. */
  predicate Accepted(s: Statement, global: Stamp, policy: Policy, target: Option<Target>, now: int) {
    !StampWrong(s, global, policy, now) && !ExpiryWrong(s, global, policy, now) && !ScopeWrong(s, target) && !DigestWrong(s, target)
  }

  /** What makes a statement count: a readable instant of issue, its own or the document's, that is neither ahead nor too
      old; an expiry that lies after it and is not over; and the vulnerability, the product and the digest asked for. */
  lemma AcceptedIff(s: Statement, global: Stamp, policy: Policy, target: Option<Target>, now: int)
    ensures Accepted(s, global, policy, target, now) <==>
            && !(s.timestamp == Malformed || (s.timestamp == Absent && !global.At?))
            && (var issued := if s.timestamp.At? then s.timestamp.ms else global.ms;
               && issued <= now + 1000 * (if policy.allowedClockSkewSeconds == 0 then 600 else policy.allowedClockSkewSeconds)
               && now - issued <= 24 * 60 * 60 * 1000 * (if policy.maxOverlayValidityDays == 0 then 365 else policy.maxOverlayValidityDays)
               && (if s.expiresAt == Absent then !policy.expiryRequired
                   else s.expiresAt.At? && issued < s.expiresAt.ms && now <= s.expiresAt.ms))
            && (target.Some? && target.value.vulnerabilityId != "" ==> target.value.vulnerabilityId in s.vulnerabilityIds)
            && (target.Some? && target.value.productIdentifier != "" ==> exists p :: p in s.products && p.id == target.value.productIdentifier)
            && (target.Some? && target.value.digest != "" ==> exists p :: p in s.products && target.value.digest in p.hashes)
  {
    if target.Some? {
      ProductIff(s.products, target.value.productIdentifier, target.value.digest);
    }
  }

  lemma ProductIff(products: seq<Product>, id: string, digest: string)
    ensures id in Map(products, ProductId) <==> exists p :: p in products && p.id == id
    ensures (exists i :: 0 <= i < |products| && digest in products[i].hashes) <==> exists p :: p in products && digest in p.hashes
  {
    Listed(products, id);
    if p :| p in products && p.id == id {
      var i :| 0 <= i < |products| && products[i] == p;
    }
    if p :| p in products && digest in p.hashes {
      var i :| 0 <= i < |products| && products[i] == p;
    }
  }

  function WithStamp(s: Statement, global: Stamp): Statement {
    s.(timestamp := StampOf(s, global))
  }

  function Matching(statements: seq<Statement>, global: Stamp, policy: Policy, target: Option<Target>, now: int): seq<Statement> {
    if statements == [] then []
    else
      var s := statements[|statements| - 1];
      var rest := Matching(statements[..|statements| - 1], global, policy, target, now);
      if Accepted(s, global, policy, target, now) then rest + [WithStamp(s, global)] else rest
  }

  lemma {:induction false} MatchingIff(statements: seq<Statement>, global: Stamp, policy: Policy, target: Option<Target>, now: int)
    ensures forall m :: m in Matching(statements, global, policy, target, now) <==>
              exists i :: 0 <= i < |statements| && Accepted(statements[i], global, policy, target, now) && WithStamp(statements[i], global) == m
  {
    if statements != [] {
      var n := |statements| - 1;
      MatchingIff(statements[..n], global, policy, target, now);
      forall m ensures m in Matching(statements, global, policy, target, now) <==>
          exists i :: 0 <= i < |statements| && Accepted(statements[i], global, policy, target, now) && WithStamp(statements[i], global) == m
      {
        if i :| 0 <= i < |statements| && Accepted(statements[i], global, policy, target, now) && WithStamp(statements[i], global) == m {
          if i < n {
            assert statements[..n][i] == statements[i];
          }
        }
      }
    }
  }

  // ---------------------------------------------------------------- which statement decides

  function TimeOf(s: Statement): int {
    if s.timestamp.At? then s.timestamp.ms else 0
  }

  /** Conservativeness; a missing status counts as not_affected here. */
  function RankOf(st: VexStatus): nat {
    match st
    case Affected => 4
    case UnderInvestigation => 3
    case Fixed => 2
    case NotAffected => 1
    case NoStatus => 1
    case Unrecognised(_) => 0
  }

  /** The comparator; where an unrecognised status makes it yield no number, the sort reads it as zero. */
  function Compare(a: Statement, b: Statement): int {
    if TimeOf(a) != TimeOf(b) then TimeOf(b) - TimeOf(a)
    else if a.status.Unrecognised? || b.status.Unrecognised? then 0
    else RankOf(b.status) - RankOf(a.status)
  }

  predicate Recognised(s: Statement) {
    !s.status.Unrecognised?
  }

  /** a decides before b: newer, or as new and no less conservative. */
  predicate Precedes(a: Statement, b: Statement) {
    TimeOf(a) > TimeOf(b) || (TimeOf(a) == TimeOf(b) && RankOf(a.status) >= RankOf(b.status))
  }

  ghost predicate InOrder(sorted: seq<Statement>) {
    forall i, j :: 0 <= i < j < |sorted| ==> Precedes(sorted[i], sorted[j])
  }

  lemma {:induction false} InsertKeepsOrder(sorted: seq<Statement>, s: Statement)
    requires InOrder(sorted) && Recognised(s) && forall x :: x in sorted ==> Recognised(x)
    ensures InOrder(Insert(Compare, sorted, s))
  {
    if sorted != [] {
      var n := |sorted| - 1;
      var init, last := sorted[..n], sorted[n];
      assert last in sorted;
      if Compare(s, last) < 0 {
        InsertKeepsOrder(init, s);
        InsertHas(Compare, init, s);
        var r := Insert(Compare, init, s);
        forall i | 0 <= i < |r| ensures Precedes(r[i], last) {
          assert r[i] in r;
          if r[i] in init {
            var k :| 0 <= k < |init| && init[k] == r[i];
            assert Precedes(sorted[k], sorted[n]);
          }
        }
      } else {
        forall i | 0 <= i < |sorted| ensures Precedes(sorted[i], s) {
          if i < n {
            assert Precedes(sorted[i], last);
          }
        }
      }
    }
  }

  lemma {:induction false} SortedIsInOrder(statements: seq<Statement>)
    requires forall x :: x in statements ==> Recognised(x)
    ensures InOrder(Sorted(Compare, statements))
    ensures forall x :: x in Sorted(Compare, statements) <==> x in statements
  {
    if statements != [] {
      var init, s := statements[..|statements| - 1], statements[|statements| - 1];
      InitLast(statements);
      SortedIsInOrder(init);
      InsertKeepsOrder(Sorted(Compare, init), s);
      InsertHas(Compare, Sorted(Compare, init), s);
    }
  }

  function Resolved(statements: seq<Statement>): Option<Statement> {
    if statements == [] then None else Some(Sorted(Compare, statements)[0])
  }

  /** Sorts its argument in place and returns the first entry. */
  method ResolveConflict(statements: array<Statement>) returns (first: Option<Statement>)
    modifies statements
    ensures first == Resolved(old(statements[..]))
  {
    if statements.Length == 0 {
      return None;
    }
    SortStable(Compare, statements);
    assert statements[..][0] == statements[0];
    return Some(statements[0]);
  }

  /** The deciding statement is one of the given, newest among all, and the most conservative of the newest. */
  lemma ResolvedIsNewestAndMostConservative(statements: seq<Statement>)
    requires statements != [] && forall x :: x in statements ==> Recognised(x)
    ensures Resolved(statements).value in statements
    ensures forall x :: x in statements ==> Precedes(Resolved(statements).value, x)
  {
    SortedIsInOrder(statements);
    var first := Sorted(Compare, statements)[0];
    assert first in Sorted(Compare, statements);
    forall x | x in statements ensures Precedes(first, x) {
      var j :| 0 <= j < |Sorted(Compare, statements)| && Sorted(Compare, statements)[j] == x;
    }
  }

  /** Hence its instant and its rank, and its status where that is given, do not depend on the order of the statements. */
  lemma ResolutionIgnoresOrder(statements: seq<Statement>, shuffled: seq<Statement>)
    requires statements != [] && forall x :: x in statements ==> Recognised(x)
    requires multiset(statements) == multiset(shuffled)
    ensures Resolved(shuffled).Some?
    ensures var a, b := Resolved(statements).value, Resolved(shuffled).value;
            && TimeOf(a) == TimeOf(b) && RankOf(a.status) == RankOf(b.status)
            && (a.status == b.status || {a.status, b.status} == {NotAffected, NoStatus})
  {
    assert |statements| == |multiset(shuffled)| == |shuffled|;
    forall x ensures x in statements <==> x in shuffled {
      assert x in statements <==> x in multiset(shuffled);
    }
    ResolvedIsNewestAndMostConservative(statements);
    ResolvedIsNewestAndMostConservative(shuffled);
  }

  /** a decides against b whatever their order: newer, or as new and more conservative. */
  predicate Beats(a: Statement, b: Statement) {
    TimeOf(a) > TimeOf(b) || (TimeOf(a) == TimeOf(b) && RankOf(a.status) > RankOf(b.status))
  }

  lemma {:induction false} HeadOfInsert(sorted: seq<Statement>, s: Statement)
    requires InOrder(sorted) && Recognised(s) && forall x :: x in sorted ==> Recognised(x)
    ensures Insert(Compare, sorted, s)[0] == if sorted == [] || Beats(s, sorted[0]) then s else sorted[0]
  {
    if sorted != [] {
      var n := |sorted| - 1;
      assert sorted[n] in sorted && sorted[0] in sorted;
      if n > 0 {
        assert Precedes(sorted[0], sorted[n]);
        HeadOfInsert(sorted[..n], s);
      }
    }
  }

  /** Between equals the order of the document decides: those before the deciding statement lose to it, those after do not beat it. */
  lemma {:induction false} ResolvedIsEarliestOfTheBest(statements: seq<Statement>) returns (k: nat)
    requires statements != [] && forall x :: x in statements ==> Recognised(x)
    ensures k < |statements| && Resolved(statements) == Some(statements[k])
    ensures forall j :: 0 <= j < k ==> Beats(statements[k], statements[j])
    ensures forall j :: k < j < |statements| ==> !Beats(statements[j], statements[k])
  {
    var n := |statements| - 1;
    var init, last := statements[..n], statements[n];
    InitLast(statements);
    SortedIsInOrder(init);
    HeadOfInsert(Sorted(Compare, init), last);
    if init == [] {
      k := 0;
    } else {
      k := ResolvedIsEarliestOfTheBest(init);
      if Beats(last, init[k]) {
        k := n;
      }
    }
  }

  // ---------------------------------------------------------------- why no statement counts

  /** The code for bad stamps, decided by the first statement that shows one of three faults. */
  function StampCode(statements: seq<Statement>, global: Stamp, policy: Policy, now: int): Code {
    if statements == [] then VEX(13)
    else
      match StampOf(statements[0], global)
      case At(issued) =>
        if issued > now + 600_000 then VEX(14)
        else if now - issued > MaxAgeMs(policy) then VEX(7)
        else StampCode(statements[1..], global, policy, now)
      case _ => VEX(13)
  }

  /** The code for a wrong scope, decided by the last statement, whether or not that one is out of scope. */
  function ScopeCode(last: Statement, target: Target): Code {
    if ProductMatches(last, target) && !VulnerabilityMatches(last, target) then VEX(5) else VEX(4)
  }

  function Diagnosis(statements: seq<Statement>, global: Stamp, policy: Policy, target: Option<Target>, now: int): Code
    requires statements != []
  {
    if exists i :: 0 <= i < |statements| && StampWrong(statements[i], global, policy, now) then StampCode(statements, global, policy, now)
    else if exists i :: 0 <= i < |statements| && ExpiryWrong(statements[i], global, policy, now) then VEX(15)
    else if exists i :: 0 <= i < |statements| && DigestWrong(statements[i], target) then VEX(19)
    else if exists i :: 0 <= i < |statements| && ScopeWrong(statements[i], target) then ScopeCode(statements[|statements| - 1], target.value)
    else VEX(20)
  }

  /** The diagnosis loop: four flags, and a scope code that every statement after the first misfit overwrites. */
  method Diagnose(statements: seq<Statement>, global: Stamp, policy: Policy, target: Option<Target>, now: int) returns (code: Code)
    requires statements != []
    ensures code == Diagnosis(statements, global, policy, target, now)
  {
    var hasTimestampError, hasExpiryError, hasScopeError, hasDigestError := false, false, false, false;
    code := VEX(12);
    var i := 0;
    while i < |statements|
      invariant 0 <= i <= |statements|
      invariant hasTimestampError <==> exists j :: 0 <= j < i && StampWrong(statements[j], global, policy, now)
      invariant hasExpiryError <==> exists j :: 0 <= j < i && ExpiryWrong(statements[j], global, policy, now)
      invariant hasDigestError <==> exists j :: 0 <= j < i && DigestWrong(statements[j], target)
      invariant hasScopeError <==> exists j :: 0 <= j < i && ScopeWrong(statements[j], target)
      invariant hasScopeError ==> code == ScopeCode(statements[i - 1], target.value)
    {
      var s := statements[i];
      var stampFault := HasStampFault(s, global, policy, now);
      if stampFault {
        hasTimestampError := true;
      }
      var expiryFault := HasExpiryFault(s, global, policy, now);
      if expiryFault {
        hasExpiryError := true;
      }
      if target.Some? {
        var matchedVuln, matchedProd, digestMatched := MatchScope(s, target.value);
        if !matchedVuln || !matchedProd {
          hasScopeError := true;
        }
        if hasScopeError {
          code := if matchedProd && !matchedVuln then VEX(5) else VEX(4);
        }
        if !digestMatched {
          hasDigestError := true;
        }
      }
      i := i + 1;
    }
    if hasTimestampError {
      code := RefineStampCode(statements, global, policy, now);
    } else if hasExpiryError {
      code := VEX(15);
    } else if hasDigestError {
      code := VEX(19);
    } else if !hasScopeError {
      code := VEX(20);
    }
  }

  method MatchScope(s: Statement, t: Target) returns (vulnerability: bool, product: bool, digest: bool)
    ensures vulnerability == VulnerabilityMatches(s, t) && product == ProductMatches(s, t) && digest == DigestMatches(s, t)
  {
    vulnerability := t.vulnerabilityId == "" || t.vulnerabilityId in s.vulnerabilityIds;
    product, digest := true, true;
    if t.productIdentifier != "" {
      product := FindProduct(s.products, t.productIdentifier);
    }
    if t.digest != "" {
      digest := FindDigest(s.products, t.digest);
    }
  }

  method HasStampFault(s: Statement, global: Stamp, policy: Policy, now: int) returns (fault: bool)
    ensures fault <==> StampWrong(s, global, policy, now)
  {
    var tStamp := StampOf(s, global);
    return !tStamp.At? || tStamp.ms > now + SkewMs(policy) || now - tStamp.ms > MaxAgeMs(policy);
  }

  method HasExpiryFault(s: Statement, global: Stamp, policy: Policy, now: int) returns (fault: bool)
    ensures fault <==> ExpiryWrong(s, global, policy, now)
  {
    var tStamp := StampOf(s, global);
    if policy.expiryRequired && s.expiresAt.Absent? {
      return true;
    }
    if s.expiresAt.Absent? {
      return false;
    }
    var notAfter := tStamp.At? && s.expiresAt.At? && s.expiresAt.ms <= tStamp.ms;
    var notAfterEpoch := tStamp.Absent? && s.expiresAt.At? && s.expiresAt.ms <= 0;
    return s.expiresAt.Malformed? || notAfter || notAfterEpoch || s.expiresAt.ms < now;
  }

  method RefineStampCode(statements: seq<Statement>, global: Stamp, policy: Policy, now: int) returns (code: Code)
    ensures code == StampCode(statements, global, policy, now)
  {
    code := VEX(13);
    var i := 0;
    while i < |statements|
      invariant 0 <= i <= |statements|
      invariant StampCode(statements, global, policy, now) == StampCode(statements[i..], global, policy, now)
    {
      var ts := StampOf(statements[i], global);
      assert statements[i..][1..] == statements[i + 1..];
      if !ts.At? {
        return VEX(13);
      }
      if ts.ms > now + 600_000 {
        return VEX(14);
      }
      if now - ts.ms > MaxAgeMs(policy) {
        return VEX(7);
      }
      i := i + 1;
    }
  }

  /** Faults of the issue date outrank faults of the expiry, these a missing digest, and that a wrong scope. */
  lemma DiagnosisPrecedence(statements: seq<Statement>, global: Stamp, policy: Policy, target: Option<Target>, now: int)
    requires statements != []
    ensures var code := Diagnosis(statements, global, policy, target, now);
            var stamp := exists s :: s in statements && StampWrong(s, global, policy, now);
            var expiry := exists s :: s in statements && ExpiryWrong(s, global, policy, now);
            var digest := exists s :: s in statements && DigestWrong(s, target);
            var scope := exists s :: s in statements && ScopeWrong(s, target);
            && (code in {VEX(7), VEX(13), VEX(14)} <==> stamp)
            && (code == VEX(15) <==> !stamp && expiry)
            && (code == VEX(19) <==> !stamp && !expiry && digest)
            && (code in {VEX(4), VEX(5)} <==> !stamp && !expiry && !digest && scope)
  {
    DiagnosisByIndex(statements, global, policy, target, now);
    SomeStatement(statements, s => StampWrong(s, global, policy, now));
    SomeStatement(statements, s => ExpiryWrong(s, global, policy, now));
    SomeStatement(statements, s => DigestWrong(s, target));
    SomeStatement(statements, s => ScopeWrong(s, target));
  }

  /** Of a wrong scope the last statement says which part of it is wrong, even if that statement is in scope. */
  lemma LastStatementNamesScope(statements: seq<Statement>, global: Stamp, policy: Policy, target: Option<Target>, now: int)
    requires statements != [] && Diagnosis(statements, global, policy, target, now) in {VEX(4), VEX(5)}
    ensures target.Some?
    ensures var last, t := statements[|statements| - 1], target.value;
            Diagnosis(statements, global, policy, target, now) == VEX(5) <==>
            && t.vulnerabilityId != "" && t.vulnerabilityId !in last.vulnerabilityIds
            && (t.productIdentifier == "" || exists p :: p in last.products && p.id == t.productIdentifier)
  {
    StampCodes(statements, global, policy, now);
    ProductIff(statements[|statements| - 1].products, target.value.productIdentifier, "");
  }

  lemma DiagnosisByIndex(statements: seq<Statement>, global: Stamp, policy: Policy, target: Option<Target>, now: int)
    requires statements != []
    ensures var code := Diagnosis(statements, global, policy, target, now);
            var stamp := exists i :: 0 <= i < |statements| && StampWrong(statements[i], global, policy, now);
            var expiry := exists i :: 0 <= i < |statements| && ExpiryWrong(statements[i], global, policy, now);
            var digest := exists i :: 0 <= i < |statements| && DigestWrong(statements[i], target);
            var scope := exists i :: 0 <= i < |statements| && ScopeWrong(statements[i], target);
            && (code in {VEX(7), VEX(13), VEX(14)} <==> stamp)
            && (code == VEX(15) <==> !stamp && expiry)
            && (code == VEX(19) <==> !stamp && !expiry && digest)
            && (code in {VEX(4), VEX(5)} <==> !stamp && !expiry && !digest && scope)
  {
    StampCodes(statements, global, policy, now);
  }

  lemma SomeStatement(statements: seq<Statement>, wrong: Statement -> bool)
    ensures (exists i :: 0 <= i < |statements| && wrong(statements[i])) <==> exists s :: s in statements && wrong(s)
  {
    if s :| s in statements && wrong(s) {
      var i :| 0 <= i < |statements| && statements[i] == s;
    }
  }

  /** Among stamp faults the first statement that is at fault at the second look names the code. */
  lemma {:induction false} FirstStampFaultDecides(statements: seq<Statement>, global: Stamp, policy: Policy, now: int, k: nat)
    requires k < |statements| && !SlipsThrough(statements[k], global, policy, now)
    requires forall i :: 0 <= i < k ==> SlipsThrough(statements[i], global, policy, now)
    ensures StampCode(statements, global, policy, now) ==
            match StampOf(statements[k], global)
            case Absent => VEX(13)
            case Malformed => VEX(13)
            case At(issued) => if issued > now + 10 * 60 * 1000 then VEX(14) else VEX(7)
  {
    if k > 0 {
      FirstStampFaultDecides(statements[1..], global, policy, now, k - 1);
    }
  }

  /** What a document with one statement is told when that statement does not count. */
  lemma SingleStatementCodes(s: Statement, global: Stamp, policy: Policy, target: Option<Target>, now: int)
    requires !Accepted(s, global, policy, target, now)
    ensures var v := DocumentVerdict(None, [s], global, policy, target, now);
            && !v.isValid && v.blocking == BLOCKING && !v.authoritative && v.chosen == None
            && (StampOf(s, global) in {Absent, Malformed} ==> v.code == VEX(13))
            && (StampOf(s, global).At? ==>
                  var issued := StampOf(s, global).ms;
                  && (issued > now + SkewMs(policy) && issued > now + 600_000 ==> v.code == VEX(14))
                  && (now - issued > MaxAgeMs(policy) ==> v.code == VEX(7))
                  && (!StampWrong(s, global, policy, now) ==>
                        var overdue := if s.expiresAt == Absent then policy.expiryRequired
                                       else !s.expiresAt.At? || s.expiresAt.ms <= issued || s.expiresAt.ms < now;
                        && (v.code == VEX(15) <==> overdue)
                        && (!overdue ==>
                              && target.Some?
                              && var t := target.value;
                                 var digest := t.digest == "" || exists p :: p in s.products && t.digest in p.hashes;
                                 var product := t.productIdentifier == "" || exists p :: p in s.products && p.id == t.productIdentifier;
                                 && (v.code == VEX(19) <==> !digest)
                                 && (v.code == VEX(4) <==> digest && !product)
                                 && (v.code == VEX(5) <==> digest && product))))
  {
    assert [s][..0] == [];
    assert Matching([s], global, policy, target, now) == [];
    assert [s][0] == s;
    if target.Some? {
      ProductIff(s.products, target.value.productIdentifier, target.value.digest);
    }
  }

  /** When every statement was filtered out the diagnosis finds a fault: the fallback code VEX-020 is never given. */
  lemma RejectionIsNeverAmbiguous(statements: seq<Statement>, global: Stamp, policy: Policy, target: Option<Target>, now: int)
    requires statements != [] && Matching(statements, global, policy, target, now) == []
    ensures Diagnosis(statements, global, policy, target, now) != VEX(20)
  {
    MatchingIff(statements, global, policy, target, now);
    var s := statements[0];
    assert Accepted(s, global, policy, target, now) ==> WithStamp(s, global) in Matching(statements, global, policy, target, now);
    StampCodes(statements, global, policy, now);
  }

  lemma {:induction false} StampCodes(statements: seq<Statement>, global: Stamp, policy: Policy, now: int)
    ensures StampCode(statements, global, policy, now) in {VEX(13), VEX(14), VEX(7)}
  {
    if statements != [] {
      StampCodes(statements[1..], global, policy, now);
    }
  }

  /** A readable instant that the second look at stamps takes no exception to: it uses ten minutes whatever the policy says. */
  predicate SlipsThrough(s: Statement, global: Stamp, policy: Policy, now: int) {
    StampOf(s, global).At? && StampOf(s, global).ms <= now + 600_000 && now - StampOf(s, global).ms <= MaxAgeMs(policy)
  }

  /**
   Readable stamps that lie in the future are reported as missing or malformed exactly when none of them is more than ten
   minutes ahead (and none is stale), which takes a policy with a smaller skew.
   */
  lemma {:induction false} FutureReportedAsMalformedIff(statements: seq<Statement>, global: Stamp, policy: Policy, now: int)
    requires forall i :: 0 <= i < |statements| ==> StampOf(statements[i], global).At?
    ensures StampCode(statements, global, policy, now) == VEX(13) <==>
            forall i :: 0 <= i < |statements| ==> SlipsThrough(statements[i], global, policy, now)
  {
    if statements != [] {
      FutureReportedAsMalformedIff(statements[1..], global, policy, now);
      assert forall i :: 1 <= i < |statements| ==> statements[i] == statements[1..][i - 1];
    }
  }

  /** And then the policy's skew is below ten minutes. */
  lemma MalformedReportNeedsSmallSkew(s: Statement, global: Stamp, policy: Policy, now: int)
    requires StampWrong(s, global, policy, now) && SlipsThrough(s, global, policy, now)
    ensures 0 < policy.allowedClockSkewSeconds < 600
    ensures now + SkewMs(policy) < StampOf(s, global).ms <= now + 600_000
  {
  }

  // ---------------------------------------------------------------- the verdict

  function Refused(code: Code): Verdict {
    Verdict(false, code, BLOCKING, false, None)
  }

  function Judged(s: Statement, policy: Policy): Verdict {
    match s.status
    case NotAffected =>
      if s.justification in policy.allowedJustifications && (policy.requireImpactStatement ==> s.impactStatement != "")
      then Verdict(true, VEX(1), NON_BLOCKING, true, Some(s))
      else Verdict(false, VEX(6), BLOCKING, false, Some(s))
    case UnderInvestigation => Verdict(true, VEX(2), REVIEW_REQUIRED, true, Some(s))
    case Affected => Verdict(true, VEX(8), BLOCKING, true, Some(s))
    case Fixed => Verdict(true, VEX(1), NON_BLOCKING, true, Some(s))
    case _ => Verdict(false, VEX(21), BLOCKING, false, Some(s))
  }

  function DocumentVerdict(earlier: Option<Code>, statements: seq<Statement>, global: Stamp, policy: Policy,
                           target: Option<Target>, now: int): Verdict
  {
    if earlier.Some? then Refused(earlier.value)
    else if statements == [] then Refused(VEX(12))
    else
      var matching := Matching(statements, global, policy, target, now);
      if matching == [] then Refused(Diagnosis(statements, global, policy, target, now))
      else Judged(Resolved(matching).value, policy)
  }

  /** Signature, issuer and envelope checks come first; `earlier` is the code one of them refused the document with. */
  method VerifyVexDocument(earlier: Option<Code>, statements: seq<Statement>, global: Stamp, policy: Policy,
                           target: Option<Target>, now: int) returns (result: Verdict)
    ensures result == DocumentVerdict(earlier, statements, global, policy, target, now)
    ensures earlier.Some? ==> result == Verdict(false, earlier.value, BLOCKING, false, None)
    ensures earlier.None? && statements == [] ==> result == Verdict(false, VEX(12), BLOCKING, false, None)
    ensures result.isValid <==> result.authoritative
    ensures result.isValid ==> result.chosen.Some?
  {
    result := Verdict(false, VEX(12), BLOCKING, false, None);
    if earlier.Some? {
      return result.(code := earlier.value);
    }
    if |statements| == 0 {
      return result.(code := VEX(12));
    }
    var matchingStmts: seq<Statement> := [];
    var i := 0;
    while i < |statements|
      invariant 0 <= i <= |statements|
      invariant matchingStmts == Matching(statements[..i], global, policy, target, now)
    {
      assert statements[..i + 1][..i] == statements[..i];
      var ok := Passes(statements[i], global, policy, target, now);
      if ok {
        matchingStmts := matchingStmts + [WithStamp(statements[i], global)];
      }
      i := i + 1;
    }
    assert statements[..i] == statements;
    if |matchingStmts| == 0 {
      var code := Diagnose(statements, global, policy, target, now);
      return result.(code := code);
    }
    var a := new Statement[|matchingStmts|](j requires 0 <= j < |matchingStmts| => matchingStmts[j]);
    assert a[..] == matchingStmts;
    var first := ResolveConflict(a);
    var finalStmt := first.value;
    result := result.(chosen := first);
    match finalStmt.status {
      case NotAffected =>
        if finalStmt.justification !in policy.allowedJustifications {
          return result.(code := VEX(6));
        }
        if policy.requireImpactStatement && finalStmt.impactStatement == "" {
          return result.(code := VEX(6));
        }
        return result.(isValid := true, blocking := NON_BLOCKING, code := VEX(1), authoritative := true);
      case UnderInvestigation =>
        return result.(isValid := true, blocking := REVIEW_REQUIRED, code := VEX(2), authoritative := true);
      case Affected =>
        return result.(isValid := true, blocking := BLOCKING, code := VEX(8), authoritative := true);
      case Fixed =>
        return result.(isValid := true, blocking := NON_BLOCKING, code := VEX(1), authoritative := true);
      case _ =>
        return result.(code := VEX(21));
    }
  }

  /** Statement k counts and none that counts is newer. */
  ghost predicate Newest(statements: seq<Statement>, global: Stamp, policy: Policy, target: Option<Target>, now: int, k: nat) {
    && k < |statements| && Accepted(statements[k], global, policy, target, now)
    && forall j :: 0 <= j < |statements| && Accepted(statements[j], global, policy, target, now) ==>
         StampOf(statements[j], global).ms <= StampOf(statements[k], global).ms
  }

  /** Which statement decides, and that the verdict is passed on it alone. */
  lemma DecidingStatement(statements: seq<Statement>, global: Stamp, policy: Policy, target: Option<Target>, now: int)
    returns (k: nat)
    requires forall i :: 0 <= i < |statements| ==> Recognised(statements[i])
    requires exists i :: 0 <= i < |statements| && Accepted(statements[i], global, policy, target, now)
    ensures Newest(statements, global, policy, target, now, k)
    ensures forall j: nat :: Newest(statements, global, policy, target, now, j) ==> RankOf(statements[j].status) <= RankOf(statements[k].status)
    ensures DocumentVerdict(None, statements, global, policy, target, now) == Judged(WithStamp(statements[k], global), policy)
  {
    var matching := Matching(statements, global, policy, target, now);
    MatchingIff(statements, global, policy, target, now);
    var i :| 0 <= i < |statements| && Accepted(statements[i], global, policy, target, now);
    assert WithStamp(statements[i], global) in matching;
    forall m | m in matching ensures Recognised(m) {
      var k :| 0 <= k < |statements| && Accepted(statements[k], global, policy, target, now) && WithStamp(statements[k], global) == m;
    }
    ResolvedIsNewestAndMostConservative(matching);
    var first := Resolved(matching).value;
    k :| 0 <= k < |statements| && Accepted(statements[k], global, policy, target, now) && WithStamp(statements[k], global) == first;
    forall j | 0 <= j < |statements| && Accepted(statements[j], global, policy, target, now)
      ensures StampOf(statements[j], global).ms <= StampOf(statements[k], global).ms
      ensures StampOf(statements[j], global).ms == StampOf(statements[k], global).ms ==>
                RankOf(statements[j].status) <= RankOf(statements[k].status)
    {
      assert WithStamp(statements[j], global) in matching;
      assert Precedes(first, WithStamp(statements[j], global));
    }
  }

  ghost predicate SomeNewest(statements: seq<Statement>, global: Stamp, policy: Policy, target: Option<Target>, now: int, status: VexStatus) {
    exists k: nat :: Newest(statements, global, policy, target, now, k) && statements[k].status == status
  }

  /**
   The newest statements that count decide, and of these the most alarming: affected blocks, under investigation asks for
   a review, fixed lets pass.
   */
  lemma VerdictIff(statements: seq<Statement>, global: Stamp, policy: Policy, target: Option<Target>, now: int)
    requires forall i :: 0 <= i < |statements| ==> Recognised(statements[i])
    requires exists i :: 0 <= i < |statements| && Accepted(statements[i], global, policy, target, now)
    ensures var v := DocumentVerdict(None, statements, global, policy, target, now);
            var affected := SomeNewest(statements, global, policy, target, now, Affected);
            var open := SomeNewest(statements, global, policy, target, now, UnderInvestigation);
            var fixed := SomeNewest(statements, global, policy, target, now, Fixed);
            && (affected <==> v.isValid && v.code == VEX(8) && v.blocking == BLOCKING && v.authoritative)
            && (!affected && open <==> v.isValid && v.code == VEX(2) && v.blocking == REVIEW_REQUIRED && v.authoritative)
            && (!affected && !open && fixed ==> v.isValid && v.code == VEX(1) && v.blocking == NON_BLOCKING && v.authoritative)
            && (!affected && !open && !fixed ==> v.blocking != REVIEW_REQUIRED && v.code in {VEX(1), VEX(6), VEX(21)})
  {
    var k := DecidingStatement(statements, global, policy, target, now);
    assert SomeNewest(statements, global, policy, target, now, statements[k].status);
  }

  /** A not_affected that is newer than every other statement that counts lets pass exactly when it is justified as the policy asks. */
  lemma NotAffectedIff(statements: seq<Statement>, global: Stamp, policy: Policy, target: Option<Target>, now: int, k: nat)
    requires forall i :: 0 <= i < |statements| ==> Recognised(statements[i])
    requires k < |statements| && Accepted(statements[k], global, policy, target, now)
    requires forall j :: 0 <= j < |statements| && j != k && Accepted(statements[j], global, policy, target, now) ==>
               StampOf(statements[j], global).ms < StampOf(statements[k], global).ms
    requires statements[k].status in {NotAffected, NoStatus}
    ensures var s, v := statements[k], DocumentVerdict(None, statements, global, policy, target, now);
            var justified := s.status == NotAffected && s.justification in policy.allowedJustifications
                             && !(policy.requireImpactStatement && s.impactStatement == "");
            && (justified <==> v.isValid && v.code == VEX(1) && v.blocking == NON_BLOCKING && v.authoritative)
            && (!justified <==> !v.isValid && v.blocking == BLOCKING && !v.authoritative)
            && (!justified ==> v.code == if s.status == NotAffected then VEX(6) else VEX(21))
  {
    var d := DecidingStatement(statements, global, policy, target, now);
    assert d == k;
  }

  /**
   A document never talks a vulnerability away against fresher bad news: when it is judged non-blocking, every accepted
   statement that says affected or under investigation is older than an accepted fixed or not_affected one.
   */
  lemma NonBlockingIsFresher(statements: seq<Statement>, global: Stamp, policy: Policy, target: Option<Target>, now: int, i: nat)
    requires forall k :: 0 <= k < |statements| ==> Recognised(statements[k])
    requires DocumentVerdict(None, statements, global, policy, target, now).blocking == NON_BLOCKING
    requires i < |statements| && Accepted(statements[i], global, policy, target, now)
    requires statements[i].status == Affected || statements[i].status == UnderInvestigation
    ensures exists k :: 0 <= k < |statements| && Accepted(statements[k], global, policy, target, now)
              && statements[k].status in {Fixed, NotAffected}
              && StampOf(statements[k], global).ms > StampOf(statements[i], global).ms
  {
    var k := DecidingStatement(statements, global, policy, target, now);
    assert statements[k].status in {Fixed, NotAffected};
    assert StampOf(statements[i], global).ms == StampOf(statements[k], global).ms ==> Newest(statements, global, policy, target, now, i);
  }
}

/** Deployment context assertions of one SBOM: judging a new one, recording it, revoking. Rows are listed oldest first. */
module ContextAssertions {
  import opened Prelude
  import T = TrustEngine

  /** The four environments; the table admits no other value, so an insert with one fails. */
  datatype Environment = Development | Test | Staging | Production

  datatype Status = Active | Revoked | Superseded | Invalid

  datatype Assurance = InvalidAssurance | Conflicting | Stale | Authorized | VerifiedUntrusted | VerifiedTrusted

  datatype Row = Row(environment: Environment, status: Status, assurance: Assurance, assertedAt: int, validUntil: int)

  /** What the authority and binding stages found, as far as the later stages use it. */
  datatype Checks = Checks(signatureVerified: bool, authorityTrusted: bool, releaseBindingPassed: bool)

  /** `matchedHours` are the hour limits of the matched authorization rules; zero sets none. */
  datatype Request = Request(
    environment: Environment, checks: Checks, validUntil: Option<int>, matchedHours: seq<nat>, assertedAt: int, now: int)

  const HourMs := 3_600_000

  /** The default of 24 hours or the smallest rule limit below it. */
  function MaxHours(matched: seq<nat>): (h: nat)
    ensures h <= 24
  {
    if matched == [] then 24
    else
      var rest, hours := MaxHours(matched[..|matched| - 1]), matched[|matched| - 1];
      if 0 < hours < rest then hours else rest
  }

  /** Given, or a day from now. */
  function RequestedUntil(r: Request): int {
    if r.validUntil.Some? then r.validUntil.value else r.assertedAt + 24 * HourMs
  }

  function FinalUntil(r: Request): int {
    Min(RequestedUntil(r), r.assertedAt + MaxHours(r.matchedHours) * HourMs)
  }

  predicate Fresh(r: Request) {
    FinalUntil(r) > r.now && r.assertedAt <= r.now
  }

  /** Any row with another environment conflicts, whatever has become of it. */
  predicate Conflicts(rows: seq<Row>, environment: Environment) {
    exists i :: 0 <= i < |rows| && rows[i].environment != environment
  }

  function AssuranceOf(c: Checks, conflict: bool, timely: bool): Assurance {
    if !c.releaseBindingPassed || !c.authorityTrusted then InvalidAssurance
    else if conflict then Conflicting
    else if !timely then Stale
    else if !c.signatureVerified then Authorized
    else VerifiedTrusted
  }

  function Judge(rows: seq<Row>, r: Request): Row {
    var assurance := AssuranceOf(r.checks, Conflicts(rows, r.environment), Fresh(r));
    Row(r.environment, if assurance.Authorized? || assurance.VerifiedTrusted? then Active else Invalid, assurance,
        r.assertedAt, FinalUntil(r))
  }

  predicate IsActive(r: Row, environment: Environment) {
    r.status.Active? && r.environment == environment
  }

  /** The newest active row of the environment, or |rows|. */
  function NewestActive(rows: seq<Row>, environment: Environment): (i: nat)
    ensures i <= |rows|
    ensures i < |rows| ==> IsActive(rows[i], environment) && forall j :: i < j < |rows| ==> !IsActive(rows[j], environment)
    ensures i == |rows| ==> forall j :: 0 <= j < |rows| ==> !IsActive(rows[j], environment)
  {
    if rows == [] then 0
    else if IsActive(rows[|rows| - 1], environment) then |rows| - 1
    else
      var i := NewestActive(rows[..|rows| - 1], environment);
      if i == |rows| - 1 then |rows| else i
  }

  function Retired(rows: seq<Row>, i: nat, status: Status): seq<Row> {
    if i < |rows| && rows[i].status.Active? then rows[i := rows[i].(status := status)] else rows
  }

  /** What a request decides on the rows it read: the new row, and the row to supersede (|read| for none). */
  datatype Plan = Plan(created: Row, previous: nat)

  function PlanOf(read: seq<Row>, r: Request): Plan {
    var created := Judge(read, r);
    Plan(created, if created.status.Active? then NewestActive(read, r.environment) else |read|)
  }

  /** The transaction: insert, then supersede by a guarded update. */
  function Commit(rows: seq<Row>, read: nat, plan: Plan): seq<Row> {
    (if plan.previous < read then Retired(rows, plan.previous, Superseded) else rows) + [plan.created]
  }

  function Recorded(rows: seq<Row>, r: Request): seq<Row> {
    Commit(rows, |rows|, PlanOf(rows, r))
  }

  class AssertionStore {
    var rows: seq<Row>

    constructor ()
      ensures rows == []
    {
      rows := [];
    }

    /** The record route: read, judge, then one transaction. */
    method RecordContextAssertion(r: Request) returns (created: Row)
      modifies this
      ensures rows == Recorded(old(rows), r) && created == Judge(old(rows), r)
    {
      var read := rows;
      created := VerifyContextAssertion(r, read);
      var previous: Option<nat> := None;
      if created.status.Active? {
        var i := FindActive(read, r.environment);
        if i < |read| {
          previous := Some(i);
        }
      }
      rows := rows + [created];
      if created.status.Active? && previous.Some? {
        SupersedeContextAssertion(previous.value);
      }
    }

    /** Guarded: only an ACTIVE row changes. */
    method SupersedeContextAssertion(i: nat)
      requires i < |rows|
      modifies this
      ensures rows == Retired(old(rows), i, Superseded)
    {
      if rows[i].status.Active? {
        rows := rows[i := rows[i].(status := Superseded)];
      }
    }

    method RevokeContextAssertion(i: nat, authorized: bool, justification: string) returns (found: bool)
      modifies this
      ensures rows == if authorized && justification != "" then Retired(old(rows), i, Revoked) else old(rows)
      ensures found <==> authorized && justification != "" && i < |old(rows)| && old(rows)[i].status.Active?
    {
      if !authorized || justification == "" || i >= |rows| || !rows[i].status.Active? {
        return false;
      }
      rows := rows[i := rows[i].(status := Revoked)];
      return true;
    }
  }

  /** The lookup goes through the rows newest first. */
  method FindActive(rows: seq<Row>, environment: Environment) returns (i: nat)
    ensures i == NewestActive(rows, environment)
  {
    var k := |rows|;
    assert rows[..k] == rows;
    while k > 0
      invariant 0 <= k <= |rows|
      invariant forall j :: k <= j < |rows| ==> !IsActive(rows[j], environment)
    {
      k := k - 1;
      if IsActive(rows[k], environment) {
        NewestIs(rows, environment, k);
        return k;
      }
    }
    return |rows|;
  }

  lemma NewestIs(rows: seq<Row>, environment: Environment, k: nat)
    requires k < |rows| && IsActive(rows[k], environment)
    requires forall j :: k < j < |rows| ==> !IsActive(rows[j], environment)
    ensures NewestActive(rows, environment) == k
  {
  }

  /** Stages 7 and 8 and the derivation of the state. */
  method VerifyContextAssertion(r: Request, rows: seq<Row>) returns (created: Row)
    ensures created == Judge(rows, r)
  {
    var maxHours := 24;
    var i := 0;
    while i < |r.matchedHours|
      invariant 0 <= i <= |r.matchedHours|
      invariant maxHours == MaxHours(r.matchedHours[..i])
    {
      assert r.matchedHours[..i + 1][..i] == r.matchedHours[..i];
      if r.matchedHours[i] > 0 && r.matchedHours[i] < maxHours {
        maxHours := r.matchedHours[i];
      }
      i := i + 1;
    }
    assert r.matchedHours[..i] == r.matchedHours;
    var capped := Min(RequestedUntil(r), r.assertedAt + maxHours * HourMs);
    var freshnessPassed := capped > r.now && r.assertedAt <= r.now;
    var conflicting := 0;
    i := 0;
    while i < |rows|
      invariant 0 <= i <= |rows| && conflicting >= 0
      invariant conflicting > 0 <==> exists j :: 0 <= j < i && rows[j].environment != r.environment
    {
      if rows[i].environment != r.environment {
        conflicting := conflicting + 1;
      }
      i := i + 1;
    }
    var assurance := AssuranceOf(r.checks, conflicting > 0, freshnessPassed);
    return Row(r.environment, if assurance.Authorized? || assurance.VerifiedTrusted? then Active else Invalid, assurance,
               r.assertedAt, capped);
  }

  // ---------------------------------------------------------------- runs

  datatype Op = Record(request: Request) | Revoke(i: nat, authorized: bool, justification: string)

  function Apply(rows: seq<Row>, op: Op): seq<Row> {
    match op
    case Record(r) => Recorded(rows, r)
    case Revoke(i, authorized, justification) => if authorized && justification != "" then Retired(rows, i, Revoked) else rows
  }

  function Run(rows: seq<Row>, ops: seq<Op>): seq<Row> {
    if ops == [] then rows else Apply(Run(rows, ops[..|ops| - 1]), ops[|ops| - 1])
  }

  /** At most one row is active. */
  ghost predicate OneActive(rows: seq<Row>) {
    forall i, j :: 0 <= i < j < |rows| ==> !(rows[i].status.Active? && rows[j].status.Active?)
  }

  /** A request activates exactly when its checks pass, it is fresh, and every row ever recorded has its environment. */
  lemma ActivatesIff(rows: seq<Row>, r: Request)
    ensures Judge(rows, r).status.Active? <==>
            && r.checks.releaseBindingPassed && r.checks.authorityTrusted && Fresh(r)
            && forall i :: 0 <= i < |rows| ==> rows[i].environment == r.environment
  {
  }

  /** It is fresh when it is not made in the future and neither the day, nor what was asked for, nor any matched hour limit is over. */
  lemma FreshIff(r: Request)
    ensures Fresh(r) <==>
            && r.assertedAt <= r.now && r.now < r.assertedAt + 24 * 60 * 60 * 1000
            && (r.validUntil.Some? ==> r.now < r.validUntil.value)
            && forall h :: h in r.matchedHours && h > 0 ==> r.now < r.assertedAt + h * 60 * 60 * 1000
  {
    MaxHoursIsLeast(r.matchedHours);
    forall h | h in r.matchedHours && h > 0 ensures MaxHours(r.matchedHours) <= h {
      var i :| 0 <= i < |r.matchedHours| && r.matchedHours[i] == h;
    }
    MaxHoursIsPositive(r.matchedHours);
  }

  lemma {:induction false} MaxHoursIsPositive(matched: seq<nat>)
    ensures MaxHours(matched) > 0
  {
    if matched != [] {
      MaxHoursIsPositive(matched[..|matched| - 1]);
    }
  }

  /** What the recorded assurance says about a request, first things first. */
  lemma AssuranceIff(rows: seq<Row>, r: Request)
    ensures var row, c := Judge(rows, r), r.checks;
            var admitted := c.releaseBindingPassed && c.authorityTrusted;
            var conflict := exists i :: 0 <= i < |rows| && rows[i].environment != r.environment;
            && row.environment == r.environment && row.assertedAt == r.assertedAt
            && (row.assurance == InvalidAssurance <==> !admitted)
            && (row.assurance == Conflicting <==> admitted && conflict)
            && (row.assurance == Stale <==> admitted && !conflict && !Fresh(r))
            && (row.assurance == Authorized <==> admitted && !conflict && Fresh(r) && !c.signatureVerified)
            && (row.assurance == VerifiedTrusted <==> admitted && !conflict && Fresh(r) && c.signatureVerified)
            && row.status == if row.assurance in {Authorized, VerifiedTrusted} then Active else Invalid
  {
  }

  /** What recording writes: the new row at the end and, if it is active, the end of the newest active row of its environment. */
  lemma RecordedIff(rows: seq<Row>, r: Request)
    ensures var rows' := Recorded(rows, r);
            && |rows'| == |rows| + 1 && rows'[|rows|] == Judge(rows, r)
            && forall j :: 0 <= j < |rows| ==>
                 var replaced := && rows'[|rows|].status == Active && rows[j].status == Active && rows[j].environment == r.environment
                                 && forall k :: j < k < |rows| ==> rows[k].status != Active || rows[k].environment != r.environment;
                 rows'[j] == if replaced then rows[j].(status := Superseded) else rows[j]
  {
    var plan := PlanOf(rows, r);
    RetiredAt(rows, plan.previous, Superseded);
    forall j | 0 <= j < |rows| ensures IsActive(rows[j], r.environment) <==> rows[j].status == Active && rows[j].environment == r.environment {
    }
  }

  lemma RetiredAt(rows: seq<Row>, i: nat, status: Status)
    ensures |Retired(rows, i, status)| == |rows|
    ensures forall j :: 0 <= j < |rows| ==>
              Retired(rows, i, status)[j] == (if j == i && rows[j].status.Active? then rows[j].(status := status) else rows[j])
  {
  }

  lemma OpKeepsOneActive(rows: seq<Row>, op: Op)
    requires OneActive(rows)
    ensures OneActive(Apply(rows, op))
  {
    match op
    case Record(r) =>
      var plan := PlanOf(rows, r);
      RetiredAt(rows, plan.previous, Superseded);
      if plan.created.status.Active? {
        ActivatesIff(rows, r);
        forall j | 0 <= j < |rows| && rows[j].status.Active? ensures j == plan.previous {
          assert IsActive(rows[j], r.environment);
        }
      }
    case Revoke(i, _, _) => RetiredAt(rows, i, Revoked);
  }

  /** Over every sequence of non-overlapping operations. */
  lemma {:induction false} AtMostOneActive(ops: seq<Op>)
    ensures OneActive(Run([], ops))
  {
    if ops != [] {
      AtMostOneActive(ops[..|ops| - 1]);
      OpKeepsOneActive(Run([], ops[..|ops| - 1]), ops[|ops| - 1]);
    }
  }

  /**
   Overlapping requests: two that read the same rows before either commits keep at most one active row exactly unless both
   activate, which ActivatesIff decides before the calls.
   */
  lemma OverlappingRequestsKeepOneActiveIff(rows: seq<Row>, r: Request, s: Request)
    requires OneActive(rows)
    ensures OneActive(Commit(Commit(rows, |rows|, PlanOf(rows, r)), |rows|, PlanOf(rows, s))) <==>
            !(Judge(rows, r).status.Active? && Judge(rows, s).status.Active?)
  {
    var p, q := PlanOf(rows, r), PlanOf(rows, s);
    var once := Commit(rows, |rows|, p);
    var twice := Commit(once, |rows|, q);
    var n := |rows|;
    RetiredAt(rows, p.previous, Superseded);
    RetiredAt(once, q.previous, Superseded);
    assert |twice| == n + 2 && twice[n + 1] == q.created && twice[n] == p.created;
    if p.created.status.Active? {
      NoOtherActive(rows, r);
    }
    if q.created.status.Active? {
      NoOtherActive(rows, s);
    }
  }

  /** What a request that activates leaves active among the rows it read: nothing but the row it supersedes. */
  lemma NoOtherActive(rows: seq<Row>, r: Request)
    requires OneActive(rows) && Judge(rows, r).status.Active?
    ensures forall j :: 0 <= j < |rows| && rows[j].status.Active? ==> j == PlanOf(rows, r).previous
  {
    ActivatesIff(rows, r);
    forall j | 0 <= j < |rows| && rows[j].status.Active? ensures j == PlanOf(rows, r).previous {
      assert IsActive(rows[j], r.environment);
    }
  }

  /** So two that read the empty list and pass their checks both stay active. */
  lemma OverlappingRequestsBothActivate(r: Request, s: Request)
    requires Judge([], r).status.Active? && Judge([], s).status.Active?
    ensures !OneActive(Commit(Commit([], 0, PlanOf([], r)), 0, PlanOf([], s)))
  {
    OverlappingRequestsKeepOneActiveIff([], r, s);
  }

  /** Rows are never removed and keep their environment; one that is not active never changes. */
  lemma {:induction false} RowsRemain(rows: seq<Row>, ops: seq<Op>)
    ensures |Run(rows, ops)| >= |rows|
    ensures forall i :: 0 <= i < |rows| ==>
              && Run(rows, ops)[i].environment == rows[i].environment
              && (!rows[i].status.Active? ==> Run(rows, ops)[i] == rows[i])
  {
    if ops != [] {
      var before := Run(rows, ops[..|ops| - 1]);
      RowsRemain(rows, ops[..|ops| - 1]);
      match ops[|ops| - 1]
      case Record(r) => RetiredAt(before, PlanOf(before, r).previous, Superseded);
      case Revoke(i, _, _) => RetiredAt(before, i, Revoked);
    }
  }

  /** Lock-out: once two environments have been asserted, successfully or not, nothing can ever be activated again. */
  lemma TwoEnvironmentsLockOut(rows: seq<Row>, i: nat, j: nat, ops: seq<Op>, r: Request)
    requires i < |rows| && j < |rows| && rows[i].environment != rows[j].environment
    ensures !Judge(Run(rows, ops), r).status.Active?
  {
    RowsRemain(rows, ops);
    ActivatesIff(Run(rows, ops), r);
  }

  // ---------------------------------------------------------------- lifetimes

  lemma {:induction false} MaxHoursIsLeast(matched: seq<nat>)
    ensures forall i :: 0 <= i < |matched| && matched[i] > 0 ==> MaxHours(matched) <= matched[i]
    ensures MaxHours(matched) == 24 || MaxHours(matched) in matched
  {
    if matched != [] {
      InitLast(matched);
      MaxHoursIsLeast(matched[..|matched| - 1]);
    }
  }

  /** An activated assertion outlives neither a day, nor what was asked for, nor any hour limit that a matched rule sets. */
  lemma LifetimeIsCapped(rows: seq<Row>, r: Request)
    requires Judge(rows, r).status.Active?
    ensures var row := Judge(rows, r);
            && r.now < row.validUntil <= row.assertedAt + 24 * 60 * 60 * 1000
            && (r.validUntil.Some? ==> row.validUntil <= r.validUntil.value)
            && (forall i :: 0 <= i < |r.matchedHours| && r.matchedHours[i] > 0 ==>
                  row.validUntil <= row.assertedAt + r.matchedHours[i] * 60 * 60 * 1000)
            && (|| row.validUntil == row.assertedAt + 24 * 60 * 60 * 1000
                || r.validUntil == Some(row.validUntil)
                || exists i :: 0 <= i < |r.matchedHours| && r.matchedHours[i] > 0 && row.validUntil == row.assertedAt + r.matchedHours[i] * 60 * 60 * 1000)
  {
    MaxHoursIsLeast(r.matchedHours);
    MaxHoursIsPositive(r.matchedHours);
    var hours := MaxHours(r.matchedHours);
    if hours in r.matchedHours {
      var i :| 0 <= i < |r.matchedHours| && r.matchedHours[i] == hours;
      assert r.assertedAt + hours * HourMs == r.assertedAt + r.matchedHours[i] * 60 * 60 * 1000;
    }
  }

  // ---------------------------------------------------------------- effect on trust decisions

  /** A row as the trust evaluation sees it. */
  function AsEvidence(r: Row, vector: T.C.Vector): T.ContextRecord {
    T.ContextRecord(
      if r.status.Active? then T.Active else if IsConflicting(r) then T.InvalidConflicting else T.OtherStatus,
      r.assurance.Authorized? || r.assurance.VerifiedTrusted?, Some(r.validUntil), true, false, vector)
  }

  predicate IsConflicting(r: Row) {
    r.status.Invalid? && r.assurance.Conflicting?
  }

  /** The automatic evaluation and the evaluate route are handed the active and the conflicting rows. */
  function Offered(rows: seq<Row>, vector: T.C.Vector): seq<T.ContextRecord> {
    if rows == [] then []
    else
      var rest, r := Offered(rows[..|rows| - 1], vector), rows[|rows| - 1];
      if r.status.Active? || IsConflicting(r) then rest + [AsEvidence(r, vector)] else rest
  }

  lemma {:induction false} ConflictIsOffered(rows: seq<Row>, i: nat, vector: T.C.Vector)
    requires i < |rows| && IsConflicting(rows[i])
    ensures exists k :: 0 <= k < |Offered(rows, vector)| && Offered(rows, vector)[k].status.InvalidConflicting?
  {
    var rest := Offered(rows[..|rows| - 1], vector);
    if i < |rows| - 1 {
      ConflictIsOffered(rows[..|rows| - 1], i, vector);
      var k :| 0 <= k < |rest| && rest[k].status.InvalidConflicting?;
      assert Offered(rows, vector)[k] == rest[k];
    } else {
      assert Offered(rows, vector)[|rest|].status.InvalidConflicting?;
    }
  }

  lemma {:induction false} OfferedHaveStatus(rows: seq<Row>, vector: T.C.Vector)
    ensures forall k :: 0 <= k < |Offered(rows, vector)| ==> !Offered(rows, vector)[k].status.NoStatus?
  {
    if rows != [] {
      OfferedHaveStatus(rows[..|rows| - 1], vector);
    }
  }

  /** The re-evaluation of the expiry worker, which a revocation also starts, is handed the active rows only. */
  function OfferedByWorker(rows: seq<Row>, vector: T.C.Vector): seq<T.ContextRecord> {
    if rows == [] then []
    else
      var rest, r := OfferedByWorker(rows[..|rows| - 1], vector), rows[|rows| - 1];
      if r.status.Active? then rest + [AsEvidence(r, vector)] else rest
  }

  /**
   A single conflicting assertion pins the SBOM for the automatic evaluation and the evaluate route: from then on, whatever
   is recorded or revoked, each of their evaluations that gets past provenance and signature ends in a review.
   */
  lemma ConflictPinsReview(rows: seq<Row>, i: nat, ops: seq<Op>, vector: T.C.Vector, b: T.Bundle, policy: T.Policy, now: int)
    requires i < |rows| && IsConflicting(rows[i])
    requires T.HasDocument(b) && T.HasProvenance(b) && T.HasSignature(b) && b.contexts == Offered(Run(rows, ops), vector)
    ensures T.DecisionOf(b, policy, now) == T.Decision(T.REVIEW_REQUIRED, T.ContextReview)
  {
    RowsRemain(rows, ops);
    ConflictIsOffered(Run(rows, ops), i, vector);
    OfferedHaveStatus(Run(rows, ops), vector);
    assert T.HasConflictRecord(b.contexts);
    assert T.ViewOf(b.contexts, policy.contextRequired, now).conflict;
  }

  lemma {:induction false} WorkerOfferOfOneActive(rows: seq<Row>, vector: T.C.Vector)
    requires OneActive(rows)
    ensures |OfferedByWorker(rows, vector)| <= 1
    ensures OfferedByWorker(rows, vector) != [] ==> exists i :: 0 <= i < |rows| && rows[i].status.Active?
    ensures forall k :: 0 <= k < |OfferedByWorker(rows, vector)| ==> OfferedByWorker(rows, vector)[k].status.Active?
  {
    if rows != [] {
      var init := rows[..|rows| - 1];
      WorkerOfferOfOneActive(init, vector);
      if OfferedByWorker(init, vector) != [] {
        var i :| 0 <= i < |init| && init[i].status.Active?;
        assert rows[i].status.Active?;
      }
    }
  }

  /** The worker is never shown a conflict: after any sequential run it sees at most one context, and that is active. */
  lemma WorkerSeesNoConflict(ops: seq<Op>, vector: T.C.Vector, required: bool, now: int)
    ensures var contexts := OfferedByWorker(Run([], ops), vector);
            && |contexts| <= 1
            && !T.ViewOf(contexts, required, now).conflict && !T.ViewOf(contexts, required, now).invalid
  {
    AtMostOneActive(ops);
    WorkerOfferOfOneActive(Run([], ops), vector);
    var contexts := OfferedByWorker(Run([], ops), vector);
    assert |T.ActiveContexts(contexts, now)| <= 1 by {
      ActiveContextsAreFew(contexts, now);
    }
  }

  /** Which recorded assertions count for an evaluation, and that they bring the context that was asserted. */
  lemma RowCountsIff(r: Row, vector: T.C.Vector, now: int)
    ensures T.CountsAsActive(AsEvidence(r, vector), now) <==>
            r.status == Active && r.assurance in {Authorized, VerifiedTrusted} && now < r.validUntil
    ensures AsEvidence(r, vector).status == T.InvalidConflicting <==> r.status == Invalid && r.assurance == Conflicting
    ensures T.VectorOf(Some(AsEvidence(r, vector))) == vector
  {
  }

  lemma {:induction false} OnlyTheActiveIsOffered(rows: seq<Row>, vector: T.C.Vector, i: nat)
    requires OneActive(rows) && i < |rows| && rows[i].status == Active
    ensures OfferedByWorker(rows, vector) == [AsEvidence(rows[i], vector)]
  {
    var n := |rows| - 1;
    WorkerOfferOfOneActive(rows[..n], vector);
    if i < n {
      OnlyTheActiveIsOffered(rows[..n], vector, i);
    }
  }

  /** A fresh assertion that is active is what the worker's evaluations see, up to its end and no longer. */
  lemma ActiveAssertionCountsUntilItsEnd(ops: seq<Op>, i: nat, vector: T.C.Vector, required: bool, now: int)
    requires i < |Run([], ops)| && Run([], ops)[i].status == Active
    ensures var row := Run([], ops)[i];
            T.ViewOf(OfferedByWorker(Run([], ops), vector), required, now) ==
            T.ContextView(if now < row.validUntil then Some(AsEvidence(row, vector)) else None, false, false)
  {
    var rows := Run([], ops);
    AtMostOneActive(ops);
    OnlyTheActiveIsOffered(rows, vector, i);
    ActiveIsAssured(ops, i);
    var c := AsEvidence(rows[i], vector);
    RowCountsIff(rows[i], vector, now);
    assert [c][..0] == [];
    assert T.ActiveContexts([c], now) == if T.CountsAsActive(c, now) then [c] else [];
  }

  lemma {:induction false} ActiveIsAssured(ops: seq<Op>, i: nat)
    requires i < |Run([], ops)| && Run([], ops)[i].status == Active
    ensures Run([], ops)[i].assurance in {Authorized, VerifiedTrusted}
  {
    var before, op := Run([], ops[..|ops| - 1]), ops[|ops| - 1];
    match op
    case Record(r) =>
      RecordedIff(before, r);
      if i < |before| {
        ActiveIsAssured(ops[..|ops| - 1], i);
      } else {
        AssuranceIff(before, r);
      }
    case Revoke(k, _, _) =>
      RetiredAt(before, k, Revoked);
      ActiveIsAssured(ops[..|ops| - 1], i);
  }

  lemma {:induction false} ActiveContextsAreFew(contexts: seq<T.ContextRecord>, now: int)
    ensures |T.ActiveContexts(contexts, now)| <= |contexts|
  {
    if contexts != [] {
      ActiveContextsAreFew(contexts[..|contexts| - 1], now);
    }
  }

  lemma {:induction false} SameOfferWithoutConflict(rows: seq<Row>, vector: T.C.Vector)
    requires forall i :: 0 <= i < |rows| ==> !IsConflicting(rows[i])
    ensures Offered(rows, vector) == OfferedByWorker(rows, vector)
  {
    if rows != [] {
      SameOfferWithoutConflict(rows[..|rows| - 1], vector);
    }
  }

  /**
   On the same rows and evidence the worker's verdict differs from that of the other two evaluators exactly when a
   conflicting assertion was ever recorded and the worker's own verdict is not a review.
   */
  lemma EvaluatorsDisagreeIff(ops: seq<Op>, vector: T.C.Vector, b: T.Bundle, policy: T.Policy, now: int)
    requires T.HasDocument(b) && T.HasProvenance(b) && T.HasSignature(b)
    ensures var rows := Run([], ops);
            var ours := T.DecisionOf(b.(contexts := Offered(rows, vector)), policy, now).status;
            var workers := T.DecisionOf(b.(contexts := OfferedByWorker(rows, vector)), policy, now).status;
            ours != workers <==> (exists i :: 0 <= i < |rows| && IsConflicting(rows[i])) && !workers.REVIEW_REQUIRED?
  {
    var rows := Run([], ops);
    if i :| 0 <= i < |rows| && IsConflicting(rows[i]) {
      assert Run(rows, []) == rows;
      var b' := b.(contexts := Offered(rows, vector));
      assert T.HasDocument(b') && T.HasProvenance(b') && T.HasSignature(b');
      ConflictPinsReview(rows, i, [], vector, b', policy, now);
    } else {
      SameOfferWithoutConflict(rows, vector);
    }
  }

  /** Such a run: an assertion, a conflicting one, and a bundle without findings. The worker trusts, the others review. */
  lemma WorkerTrustsDespiteConflict(r: Request, s: Request, vector: T.C.Vector, b: T.Bundle, policy: T.Policy, now: int)
    requires r.checks.authorityTrusted && r.checks.releaseBindingPassed && Fresh(r) && FinalUntil(r) > now
    requires s.checks.authorityTrusted && s.checks.releaseBindingPassed && s.environment != r.environment
    requires T.HasDocument(b) && T.HasProvenance(b) && T.HasSignature(b) && !T.HasActiveException(b)
    requires b.document.value.findings == [] && b.vex == [] && !vector.environment.NoEnvironment?
    ensures var rows := Run([], [Record(r), Record(s)]);
            && T.DecisionOf(b.(contexts := OfferedByWorker(rows, vector)), policy, now).status == T.TRUSTED
            && T.DecisionOf(b.(contexts := Offered(rows, vector)), policy, now).status == T.REVIEW_REQUIRED
  {
    var rows := Run([], [Record(r), Record(s)]);
    TwoRecords(r, s);
    var first := AsEvidence(Judge([], r), vector);
    assert rows[..1] == [Judge([], r)] && rows[..1][..0] == [];
    assert OfferedByWorker(rows[..1], vector) == [] + [first];
    assert OfferedByWorker(rows, vector) == [first];
    HarmlessBundleIsTrusted(first, b, policy, now);
    EvaluatorsDisagreeIff([Record(r), Record(s)], vector, b, policy, now);
    assert IsConflicting(rows[1]);
    assert Run(rows, []) == rows;
    var b'' := b.(contexts := Offered(rows, vector));
    assert T.HasDocument(b'') && T.HasProvenance(b'') && T.HasSignature(b'');
    ConflictPinsReview(rows, 1, [], vector, b'', policy, now);
  }

  lemma HarmlessBundleIsTrusted(c: T.ContextRecord, b: T.Bundle, policy: T.Policy, now: int)
    requires T.CountsAsActive(c, now) && !c.vector.environment.NoEnvironment? && !c.prodCritical
    requires T.HasDocument(b) && T.HasProvenance(b) && T.HasSignature(b) && !T.HasActiveException(b)
    requires b.document.value.findings == [] && b.vex == []
    ensures T.DecisionOf(b.(contexts := [c]), policy, now).status == T.TRUSTED
  {
    var b' := b.(contexts := [c]);
    OnlyContext(c, policy.contextRequired, now);
    assert T.HasDocument(b') && T.HasProvenance(b') && T.HasSignature(b') && !T.HasActiveException(b');
    T.MandatoryIff(b');
    T.TrustedIff(b', policy, now);
  }

  lemma TwoRecords(r: Request, s: Request)
    requires Judge([], r).status.Active? && r.environment != s.environment
    ensures Run([], [Record(r), Record(s)]) == [Judge([], r), Judge([Judge([], r)], s)]
    ensures !Judge([Judge([], r)], s).status.Active?
  {
    assert [Record(r), Record(s)][..1] == [Record(r)] && [Record(r)][..0] == [];
    assert Run([], [Record(r)]) == Recorded([], r) == [Judge([], r)];
    assert [Judge([], r)][0].environment != s.environment;
  }

  lemma OnlyContext(c: T.ContextRecord, required: bool, now: int)
    requires T.CountsAsActive(c, now)
    ensures T.ViewOf([c], required, now) == T.ContextView(Some(c), false, false)
  {
    assert [c][..0] == [];
    assert T.ActiveContexts([c], now) == [] + [c];
  }
}

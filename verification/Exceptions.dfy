/**
 Policy exceptions: the approval check, the governed status machine under overlapping requests, and the expiry worker.
 */
module Exceptions {
  import opened Prelude
  import T = TrustEngine

  datatype Status = Requested | Active | RejectedStatus | Revoked | Superseded | Expired

  datatype Risk = LOW | MEDIUM | HIGH | CRITICAL | OtherRisk

  /** What a request fixes. Empty strings stand for missing values; the store keeps dates typed. `hasJustification`, `hasPlan`: the text
      is more than white space. */
  datatype Terms = Terms(
    sbomId: string, digest: string, policyRuleId: string, reasonCode: string, hasJustification: bool, hasPlan: bool,
    controls: seq<string>, risk: Risk, validFrom: Option<int>, validUntil: int,
    requestedBy: string, requestedByRole: string, ownedBy: string, ownerRole: string)

  datatype RulePolicy = Exceptionable | NonExceptionable | ReviewOnly

  datatype Governance = Governance(
    requesterRoles: set<string>, ownerRoles: set<string>, approverRoles: set<string>, revoked: set<string>,
    requireIndependentApprover: bool, requesterDiffers: bool, ownerDiffers: bool,
    maxHours: map<Risk, nat>, requirePlan: bool, requireControls: bool, allowCritical: bool, rules: map<string, RulePolicy>)

  /** Who approves which document, and when. */
  datatype Approval = Approval(approver: string, role: string, sbomId: string, digest: string, now: int)

  // ---------------------------------------------------------------- the approval check

  predicate StructureValid(t: Terms) {
    && t.sbomId != "" && t.digest != "" && t.policyRuleId != "" && t.reasonCode != "" && t.hasJustification
    && (t.validFrom.Some? ==> t.validFrom.value < t.validUntil)
    && !t.risk.OtherRisk?
  }

  predicate RuleInScope(g: Governance, rule: string) {
    rule in g.rules && g.rules[rule].Exceptionable?
  }

  predicate RolesValid(g: Governance, t: Terms, a: Approval) {
    && t.requestedByRole in g.requesterRoles && t.ownerRole in g.ownerRoles && a.role in g.approverRoles
    && !(a.role != "" && a.role in g.revoked) && !(a.approver != "" && a.approver in g.revoked)
  }

  predicate DutiesSeparated(g: Governance, t: Terms, a: Approval) {
    && (g.requireIndependentApprover ==> a.approver != "")
    && (g.requesterDiffers ==> t.requestedBy != a.approver)
    && (g.ownerDiffers ==> t.ownedBy != a.approver)
  }

  function From(t: Terms, now: int): int {
    if t.validFrom.Some? then t.validFrom.value else now
  }

  function HoursFor(g: Governance, risk: Risk): nat {
    if risk in g.maxHours then g.maxHours[risk] else 0
  }

  const HourMs := 3_600_000

  predicate PeriodValid(g: Governance, t: Terms, now: int) {
    var from := From(t, now);
    && from < t.validUntil && from <= now + 24 * HourMs
    && t.validUntil - from <= HoursFor(g, t.risk) * HourMs
  }

  predicate ContentValid(g: Governance, t: Terms) {
    && (t.risk.CRITICAL? ==> g.allowCritical)
    && t.hasJustification
    && (g.requirePlan ==> t.hasPlan)
    && (g.requireControls && (t.risk.HIGH? || t.risk.CRITICAL?) ==> t.controls != [])
  }

  predicate Bound(t: Terms, a: Approval) {
    t.sbomId == a.sbomId && t.digest == a.digest
  }

  /** All that an approval has to pass. */
  predicate Approvable(g: Governance, t: Terms, a: Approval) {
    && StructureValid(t) && Bound(t, a) && RuleInScope(g, t.policyRuleId) && RolesValid(g, t, a) && DutiesSeparated(g, t, a)
    && PeriodValid(g, t, a.now) && ContentValid(g, t) && t.validUntil > a.now && a.approver != ""
  }

  /**
   Who may approve what, and for how long: a complete request for the document at hand, under a rule that admits
   exceptions; requester, owner and approver in their roles and not revoked, and apart where that is demanded; a period
   that starts within a day, is not over and no longer than the risk allows; a plan and controls where they are demanded.
   */
  lemma ApprovableIff(g: Governance, t: Terms, a: Approval)
    ensures Approvable(g, t, a) <==>
            var start := if t.validFrom.Some? then t.validFrom.value else a.now;
            var hours := if t.risk in g.maxHours then g.maxHours[t.risk] else 0;
            && "" !in [t.sbomId, t.digest, t.policyRuleId, t.reasonCode, a.approver]
            && t.hasJustification && t.risk in {LOW, MEDIUM, HIGH, CRITICAL}
            && a.sbomId == t.sbomId && a.digest == t.digest
            && t.policyRuleId in g.rules && g.rules[t.policyRuleId] == Exceptionable
            && t.requestedByRole in g.requesterRoles && t.ownerRole in g.ownerRoles && a.role in g.approverRoles
            && (a.role == "" || a.role !in g.revoked) && a.approver !in g.revoked
            && !(g.requesterDiffers && a.approver == t.requestedBy) && !(g.ownerDiffers && a.approver == t.ownedBy)
            && a.now < t.validUntil && start < t.validUntil
            && start - a.now <= 24 * 60 * 60 * 1000 && t.validUntil - start <= hours * 60 * 60 * 1000
            && (t.risk == CRITICAL ==> g.allowCritical)
            && (g.requirePlan ==> t.hasPlan)
            && (g.requireControls && t.risk in {HIGH, CRITICAL} ==> |t.controls| > 0)
  {
  }

  datatype Derived = DerivedInvalid | DerivedRejected | DerivedExpired | DerivedActive | DerivedRequested

  datatype Assurance = InvalidAssurance | VerifiedUntrusted | Stale | VerifiedTrusted | NotEvaluated

  datatype Findings = Findings(
    structureValid: bool, bindingPassed: bool, scopePassed: bool, governanceValid: bool, dutiesPassed: bool, validityPassed: bool,
    isExpired: bool, approved: bool)

  function DeriveStatus(f: Findings): Derived {
    if !f.structureValid || !f.scopePassed || !f.bindingPassed || !f.validityPassed then DerivedInvalid
    else if !f.governanceValid || !f.dutiesPassed then DerivedRejected
    else if f.isExpired then DerivedExpired
    else if f.approved then DerivedActive
    else DerivedRequested
  }

  function DeriveAssurance(f: Findings, status: Derived): Assurance {
    if !f.structureValid then InvalidAssurance
    else if !f.governanceValid then VerifiedUntrusted
    else if !f.scopePassed || !f.bindingPassed || !f.dutiesPassed || !f.validityPassed then InvalidAssurance
    else if f.isExpired then Stale
    else if status.DerivedActive? then VerifiedTrusted
    else NotEvaluated
  }

  ghost function FindingsOf(g: Governance, t: Terms, a: Approval): Findings {
    Findings(StructureValid(t), Bound(t, a), RuleInScope(g, t.policyRuleId), RolesValid(g, t, a), DutiesSeparated(g, t, a),
             PeriodValid(g, t, a.now) && ContentValid(g, t), t.validUntil <= a.now, a.approver != "")
  }

  /** Both derivations come out favourable exactly when every check passed. */
  lemma DerivedIff(g: Governance, t: Terms, a: Approval)
    ensures DeriveStatus(FindingsOf(g, t, a)).DerivedActive? <==> Approvable(g, t, a)
    ensures DeriveAssurance(FindingsOf(g, t, a), DeriveStatus(FindingsOf(g, t, a))).VerifiedTrusted? <==> Approvable(g, t, a)
  {
    FavourableIff(FindingsOf(g, t, a));
  }

  lemma FavourableIff(f: Findings)
    ensures var all := f.structureValid && f.bindingPassed && f.scopePassed && f.governanceValid && f.dutiesPassed
                       && f.validityPassed && !f.isExpired && f.approved;
            && (DeriveStatus(f).DerivedActive? <==> all)
            && (DeriveAssurance(f, DeriveStatus(f)).VerifiedTrusted? <==> all)
  {
  }

  /** What is reported of an approval that fails: bad content before bad governance, and that before expiry. */
  lemma FailedApprovalIff(f: Findings)
    ensures var status := DeriveStatus(f);
            var sound := f.structureValid && f.scopePassed && f.bindingPassed && f.validityPassed;
            && (status == DerivedInvalid <==> !sound)
            && (status == DerivedRejected <==> sound && !(f.governanceValid && f.dutiesPassed))
            && (status == DerivedExpired <==> sound && f.governanceValid && f.dutiesPassed && f.isExpired)
            && (status == DerivedRequested <==> sound && f.governanceValid && f.dutiesPassed && !f.isExpired && !f.approved)
    ensures var assurance := DeriveAssurance(f, DeriveStatus(f));
            var sound := f.scopePassed && f.bindingPassed && f.dutiesPassed && f.validityPassed;
            && (assurance == InvalidAssurance <==> !f.structureValid || (f.governanceValid && !sound))
            && (assurance == VerifiedUntrusted <==> f.structureValid && !f.governanceValid)
            && (assurance == Stale <==> f.structureValid && f.governanceValid && sound && f.isExpired)
  {
  }

  /** The approval evaluation activates exactly what may be approved. */
  method EvaluateExceptionApproval(g: Governance, t: Terms, a: Approval) returns (f: Findings, status: Derived, assurance: Assurance)
    ensures status.DerivedActive? <==> Approvable(g, t, a)
    ensures assurance.VerifiedTrusted? <==> Approvable(g, t, a)
    ensures f == FindingsOf(g, t, a)
  {
    var scope := CheckRuleScope(g, t.policyRuleId);
    var roles, duties := CheckGovernance(g, t, a);
    f := Findings(StructureValid(t), t.sbomId == a.sbomId && t.digest == a.digest, scope, roles, duties,
                  PeriodValid(g, t, a.now) && ContentValid(g, t), t.validUntil <= a.now, a.approver != "");
    status := DeriveStatus(f);
    assurance := DeriveAssurance(f, status);
    DerivedIff(g, t, a);
  }

  method CheckRuleScope(g: Governance, rule: string) returns (valid: bool)
    ensures valid == RuleInScope(g, rule)
  {
    if rule !in g.rules {
      return false;
    }
    match g.rules[rule] {
      case NonExceptionable => return false;
      case ReviewOnly => return false;
      case Exceptionable => return true;
    }
  }

  method CheckGovernance(g: Governance, t: Terms, a: Approval) returns (roles: bool, duties: bool)
    ensures roles == RolesValid(g, t, a) && duties == DutiesSeparated(g, t, a)
  {
    var approverValid := a.role in g.approverRoles;
    if a.role != "" && a.role in g.revoked {
      approverValid := false;
    }
    if a.approver != "" && a.approver in g.revoked {
      approverValid := false;
    }
    roles := t.requestedByRole in g.requesterRoles && t.ownerRole in g.ownerRoles && approverValid;
    duties := true;
    if g.requireIndependentApprover && a.approver == "" { duties := false; }
    if g.requesterDiffers && t.requestedBy == a.approver { duties := false; }
    if g.ownerDiffers && t.ownedBy == a.approver { duties := false; }
  }

  // ---------------------------------------------------------------- rows, events, requests in flight

  /** `approval` remembers under which approval the row became active. */
  datatype Row = Row(terms: Terms, status: Status, approval: Option<Approval>, trusted: bool)

  datatype EventKind = REQUESTED | APPROVED | REJECTED | REVOKED | SUPERSEDED | EXPIRED
  datatype Event = Event(kind: EventKind, row: nat, previous: Status)

  /** A request that has read its row and will update it; one that has written and will log; one that has ended. */
  datatype Task =
    | Approving(row: nat, approval: Approval)
    | Rejecting(row: nat, approver: string)
    | Revoking(row: nat)
    | Superseding(row: nat, read: Status)
    | Logging(event: Event)
    | Finished

  predicate WillUpdate(t: Task) {
    !t.Logging? && !t.Finished?
  }

  datatype Sys = Sys(rows: seq<Row>, events: seq<Event>, tasks: seq<Task>)

  const Start := Sys([], [], [])

  /** The guarded updates: each looks for one current status. */
  function Guarded(rows: seq<Row>, i: nat, expected: Status, updated: Row): seq<Row> {
    if i < |rows| && rows[i].status == expected then rows[i := updated] else rows
  }

  /** The table refuses an approver who is the requester or the owner. */
  predicate StoreRefuses(t: Terms, approver: string) {
    t.requestedBy == approver || t.ownedBy == approver
  }

  /** The event that a request logs after its update, whether or not the update matched. */
  function EventOf(t: Task): Event
    requires WillUpdate(t)
  {
    match t
    case Approving(i, _) => Event(APPROVED, i, Requested)
    case Rejecting(i, _) => Event(REJECTED, i, Requested)
    case Revoking(i) => Event(REVOKED, i, Active)
    case Superseding(i, read) => Event(SUPERSEDED, i, read)
  }

  /** The update throws: it matches, and the table refuses the approver it writes. */
  predicate Throws(t: Task, current: Row)
    requires WillUpdate(t)
  {
    match t
    case Approving(_, a) => current.status.Requested? && StoreRefuses(current.terms, a.approver)
    case Rejecting(_, approver) => current.status.Requested? && StoreRefuses(current.terms, approver)
    case _ => false
  }

  function UpdatedRows(rows: seq<Row>, t: Task): seq<Row>
    requires WillUpdate(t) && t.row < |rows|
  {
    var current := rows[t.row];
    match t
    case Approving(i, a) => Guarded(rows, i, Requested, current.(status := Active, approval := Some(a), trusted := true))
    case Rejecting(i, _) => Guarded(rows, i, Requested, current.(status := RejectedStatus, trusted := false))
    case Revoking(i) => Guarded(rows, i, Active, current.(status := Revoked))
    case Superseding(i, _) => Guarded(rows, i, Active, current.(status := Superseded))
  }

  function Committed(s: Sys, k: nat): Sys
    requires k < |s.tasks| && WillUpdate(s.tasks[k]) && s.tasks[k].row < |s.rows|
  {
    var t := s.tasks[k];
    if Throws(t, s.rows[t.row]) then s.(tasks := s.tasks[k := Finished])
    else s.(rows := UpdatedRows(s.rows, t), tasks := s.tasks[k := Logging(EventOf(t))])
  }

  predicate Due(r: Row, now: int) {
    r.status.Active? && r.terms.validUntil <= now
  }

  function Lapsed(r: Row): Row {
    r.(status := Expired, trusted := false)
  }

  /** The rows of one expiry run that leaves out the rows some other transaction has locked. */
  function AfterExpiry(rows: seq<Row>, now: int, locked: set<nat>): seq<Row> {
    seq(|rows|, i requires 0 <= i < |rows| => if Due(rows[i], now) && i !in locked then Lapsed(rows[i]) else rows[i])
  }

  function ExpiryEvents(rows: seq<Row>, now: int, locked: set<nat>): seq<Event> {
    if rows == [] then []
    else
      var n := |rows| - 1;
      var init := ExpiryEvents(rows[..n], now, locked);
      if Due(rows[n], now) && n !in locked then init + [Event(EXPIRED, n, Active)] else init
  }

  datatype Step =
    | Request(terms: Terms)
    | ReadToApprove(i: nat, approval: Approval)
    | ReadToReject(i: nat, approver: string)
    | ReadToRevoke(i: nat)
    | ReadToSupersede(i: nat)
    | Commit(k: nat)
    | Log(k: nat)
    | Expire(now: int, locked: set<nat>)

  /** Steps whose check fails leave the state as it is. A task may go on late, or never: an update can stay
      without its event. */
  function Next(g: Governance, s: Sys, st: Step): Sys {
    match st
    case Request(t) =>
      if StructureValid(t) then s.(rows := s.rows + [Row(t, Requested, None, false)],
                                     tasks := s.tasks + [Logging(Event(REQUESTED, |s.rows|, Requested))])
      else s
    case ReadToApprove(i, a) =>
      if i < |s.rows| && s.rows[i].status.Requested? && Approvable(g, s.rows[i].terms, a) then s.(tasks := s.tasks + [Approving(i, a)]) else s
    case ReadToReject(i, approver) =>
      if i < |s.rows| && s.rows[i].status.Requested? then s.(tasks := s.tasks + [Rejecting(i, approver)]) else s
    case ReadToRevoke(i) => if i < |s.rows| && s.rows[i].status.Active? then s.(tasks := s.tasks + [Revoking(i)]) else s
    case ReadToSupersede(i) =>
      if i < |s.rows| && (s.rows[i].status.Active? || s.rows[i].status.Requested?)
      then s.(tasks := s.tasks + [Superseding(i, s.rows[i].status)]) else s
    case Commit(k) => if k < |s.tasks| && WillUpdate(s.tasks[k]) && s.tasks[k].row < |s.rows| then Committed(s, k) else s
    case Log(k) =>
      if k < |s.tasks| && s.tasks[k].Logging? then s.(events := s.events + [s.tasks[k].event], tasks := s.tasks[k := Finished]) else s
    case Expire(now, locked) =>
      s.(rows := AfterExpiry(s.rows, now, locked), events := s.events + ExpiryEvents(s.rows, now, locked))
  }

  function Run(g: Governance, s: Sys, steps: seq<Step>): Sys {
    if steps == [] then s else Next(g, Run(g, s, steps[..|steps| - 1]), steps[|steps| - 1])
  }

  // ---------------------------------------------------------------- what every run keeps

  predicate Terminal(st: Status) {
    !st.Requested? && !st.Active?
  }

  /** The whole status graph. */
  predicate MayBecome(a: Status, b: Status) {
    a == b || (a.Requested? && (b.Active? || b.RejectedStatus?)) || (a.Active? && (b.Revoked? || b.Superseded? || b.Expired?))
  }

  /** Every approval that is under way or was used had passed its check, and only approved rows left REQUESTED for ACTIVE. */
  ghost predicate Governed(g: Governance, s: Sys) {
    && (forall k :: 0 <= k < |s.tasks| && WillUpdate(s.tasks[k]) ==> s.tasks[k].row < |s.rows|)
    && (forall k :: 0 <= k < |s.tasks| && s.tasks[k].Logging? ==> !s.tasks[k].event.kind.EXPIRED?)
    && (forall k :: 0 <= k < |s.tasks| && s.tasks[k].Approving? ==>
          Approvable(g, s.rows[s.tasks[k].row].terms, s.tasks[k].approval))
    && (forall i :: 0 <= i < |s.rows| && s.rows[i].status in {Active, Revoked, Superseded, Expired} ==>
          && s.rows[i].approval.Some? && Approvable(g, s.rows[i].terms, s.rows[i].approval.value)
          && !StoreRefuses(s.rows[i].terms, s.rows[i].approval.value.approver))
    && (forall i :: 0 <= i < |s.rows| && s.rows[i].trusted ==> s.rows[i].approval.Some?)
  }

  lemma StatusStep(g: Governance, s: Sys, st: Step, i: nat)
    requires Governed(g, s) && i < |s.rows|
    ensures var s' := Next(g, s, st);
            && |s'.rows| >= |s.rows| && s'.rows[i].terms == s.rows[i].terms
            && MayBecome(s.rows[i].status, s'.rows[i].status)
  {
  }

  lemma CommitIsGoverned(g: Governance, s: Sys, k: nat)
    requires Governed(g, s) && k < |s.tasks| && WillUpdate(s.tasks[k])
    ensures Governed(g, Committed(s, k))
  {
  }

  lemma NextIsGoverned(g: Governance, s: Sys, st: Step)
    requires Governed(g, s)
    ensures Governed(g, Next(g, s, st))
  {
    match st
    case Commit(k) =>
      if k < |s.tasks| && WillUpdate(s.tasks[k]) {
        CommitIsGoverned(g, s, k);
      }
    case _ =>
  }

  lemma {:induction false} RunIsGoverned(g: Governance, steps: seq<Step>)
    ensures Governed(g, Run(g, Start, steps))
  {
    if steps != [] {
      RunIsGoverned(g, steps[..|steps| - 1]);
      NextIsGoverned(g, Run(g, Start, steps[..|steps| - 1]), steps[|steps| - 1]);
    }
  }

  /** No step of any run leaves the status graph: REQUESTED is the only way into ACTIVE. */
  lemma EveryStepFollowsTheGraph(g: Governance, steps: seq<Step>, st: Step, i: nat)
    requires i < |Run(g, Start, steps).rows|
    ensures var s, s' := Run(g, Start, steps), Next(g, Run(g, Start, steps), st);
            && |s'.rows| >= |s.rows| && s'.rows[i].terms == s.rows[i].terms
            && MayBecome(s.rows[i].status, s'.rows[i].status)
  {
    RunIsGoverned(g, steps);
    StatusStep(g, Run(g, Start, steps), st, i);
  }

  /**
   In every interleaving an exception that is or was active had been approved under all checks: bound to its release,
   on an exceptionable rule, by somebody other than requester and owner whatever the policy says, within the hours its risk
   allows.
   */
  lemma ActiveWasApproved(g: Governance, steps: seq<Step>, i: nat)
    requires i < |Run(g, Start, steps).rows|
    requires Run(g, Start, steps).rows[i].status in {Active, Revoked, Superseded, Expired}
    ensures var r := Run(g, Start, steps).rows[i];
            && r.approval.Some?
            && var a, t := r.approval.value, r.terms;
               && a.sbomId == t.sbomId && a.digest == t.digest && RuleInScope(g, t.policyRuleId)
               && a.approver != "" && a.approver != t.requestedBy && a.approver != t.ownedBy
               && a.now < t.validUntil <= From(t, a.now) + HoursFor(g, t.risk) * HourMs
  {
    RunIsGoverned(g, steps);
  }

  /** The final statuses absorb. */
  lemma {:induction false} TerminalForever(g: Governance, s: Sys, steps: seq<Step>, i: nat)
    requires Governed(g, s) && i < |s.rows| && Terminal(s.rows[i].status)
    ensures Governed(g, Run(g, s, steps)) && i < |Run(g, s, steps).rows| && Run(g, s, steps).rows[i].status == s.rows[i].status
  {
    if steps != [] {
      var before := Run(g, s, steps[..|steps| - 1]);
      TerminalForever(g, s, steps[..|steps| - 1], i);
      StatusStep(g, before, steps[|steps| - 1], i);
      NextIsGoverned(g, before, steps[|steps| - 1]);
    }
  }

  // ---------------------------------------------------------------- expiry

  function EventsOf(events: seq<Event>, kind: EventKind, i: nat): nat {
    if events == [] then 0
    else EventsOf(events[..|events| - 1], kind, i)
         + if events[|events| - 1].kind == kind && events[|events| - 1].row == i then 1 else 0
  }

  lemma {:induction false} EventsConcat(a: seq<Event>, b: seq<Event>, kind: EventKind, i: nat)
    ensures EventsOf(a + b, kind, i) == EventsOf(a, kind, i) + EventsOf(b, kind, i)
  {
    if b == [] {
      assert a + b == a;
    } else {
      ConcatSnoc(a, b);
      EventsConcat(a, b[..|b| - 1], kind, i);
      assert (a + b)[..|a + b| - 1] == a + b[..|b| - 1];
    }
  }

  lemma {:induction false} ExpiryEventsOf(rows: seq<Row>, now: int, locked: set<nat>, i: nat)
    ensures EventsOf(ExpiryEvents(rows, now, locked), EXPIRED, i) ==
            if i < |rows| && Due(rows[i], now) && i !in locked then 1 else 0
    ensures ExpiryEvents(rows, now, locked) == [] <==> forall j :: 0 <= j < |rows| ==> !Due(rows[j], now) || j in locked
  {
    if rows != [] {
      var n := |rows| - 1;
      ExpiryEventsOf(rows[..n], now, locked, i);
      var init := ExpiryEvents(rows[..n], now, locked);
      if Due(rows[n], now) && n !in locked {
        EventsConcat(init, [Event(EXPIRED, n, Active)], EXPIRED, i);
        assert [Event(EXPIRED, n, Active)][..0] == [];
      }
      assert forall j :: 0 <= j < n ==> rows[..n][j] == rows[j];
    }
  }

  ghost predicate ExpiredOnce(s: Sys) {
    forall i: nat :: EventsOf(s.events, EXPIRED, i) == if i < |s.rows| && s.rows[i].status.Expired? then 1 else 0
  }

  lemma ExpiredOnceStep(g: Governance, s: Sys, st: Step)
    requires Governed(g, s) && ExpiredOnce(s)
    ensures ExpiredOnce(Next(g, s, st))
  {
    var s' := Next(g, s, st);
    forall i: nat ensures EventsOf(s'.events, EXPIRED, i) == if i < |s'.rows| && s'.rows[i].status.Expired? then 1 else 0 {
      match st
      case Expire(now, locked) =>
        ExpiryEventsOf(s.rows, now, locked, i);
        EventsConcat(s.events, ExpiryEvents(s.rows, now, locked), EXPIRED, i);
      case Commit(k) =>
        if k < |s.tasks| && WillUpdate(s.tasks[k]) {
          CommitExpiresNothing(s, k, i);
        }
      case Log(k) =>
        if k < |s.tasks| && s.tasks[k].Logging? {
          LoggedOne(s.events, s.tasks[k].event, i);
        }
      case _ =>
    }
  }

  lemma LoggedOne(events: seq<Event>, e: Event, i: nat)
    ensures EventsOf(events + [e], EXPIRED, i) == EventsOf(events, EXPIRED, i) + if e.kind.EXPIRED? && e.row == i then 1 else 0
  {
    assert (events + [e])[..|events|] == events;
  }

  lemma CommitExpiresNothing(s: Sys, k: nat, i: nat)
    requires k < |s.tasks| && WillUpdate(s.tasks[k]) && s.tasks[k].row < |s.rows|
    ensures var s' := Committed(s, k);
            && s'.events == s.events && |s'.rows| == |s.rows|
            && (i < |s.rows| ==> (s'.rows[i].status.Expired? <==> s.rows[i].status.Expired?))
  {
  }

  /** Every expired exception has exactly one EXPIRED event, every other one none, in every interleaving. */
  lemma {:induction false} ExpiryIsLoggedOnce(g: Governance, steps: seq<Step>)
    ensures ExpiredOnce(Run(g, Start, steps))
  {
    if steps == [] {
      assert forall i: nat :: EventsOf([], EXPIRED, i) == 0;
    } else {
      ExpiryIsLoggedOnce(g, steps[..|steps| - 1]);
      RunIsGoverned(g, steps[..|steps| - 1]);
      ExpiredOnceStep(g, Run(g, Start, steps[..|steps| - 1]), steps[|steps| - 1]);
    }
  }

  // ---------------------------------------------------------------- the worker

  datatype Impact = ExpiredImpact | RevokedImpact | OtherImpact

  datatype VexRow = VexRow(sbomId: string, impact: Impact, validUntil: int)

  predicate VexDue(v: VexRow, now: int) {
    v.impact.OtherImpact? && v.validUntil <= now
  }

  function VexAfterExpiry(vex: seq<VexRow>, now: int, locked: set<nat>): seq<VexRow> {
    seq(|vex|, i requires 0 <= i < |vex| => if VexDue(vex[i], now) && i !in locked then vex[i].(impact := ExpiredImpact) else vex[i])
  }

  ghost function Touched(rows: seq<Row>, vex: seq<VexRow>, now: int, locked: set<nat>, lockedVex: set<nat>): set<string> {
    (set i | 0 <= i < |rows| && Due(rows[i], now) && i !in locked :: rows[i].terms.sbomId)
    + (set i | 0 <= i < |vex| && VexDue(vex[i], now) && i !in lockedVex :: vex[i].sbomId)
  }

  class ExpiryWorker {
    var rows: seq<Row>
    var events: seq<Event>
    var vex: seq<VexRow>
    var isRunning: bool

    /**
     One run of the worker: mark, log, collect, then commit if anything was collected and roll back otherwise, or when a
     statement has failed. What is rolled back without a failure is nothing, so every marked row is committed.
     */
    method ProcessExpiredExceptions(now: int, locked: set<nat>, lockedVex: set<nat>, fails: bool)
      returns (committed: bool, reevaluate: set<string>)
      modifies this
      ensures isRunning == old(isRunning)
      ensures old(isRunning) || fails ==>
                rows == old(rows) && events == old(events) && vex == old(vex) && !committed && reevaluate == {}
      ensures !old(isRunning) && !fails ==>
                && rows == AfterExpiry(old(rows), now, locked)
                && events == old(events) + ExpiryEvents(old(rows), now, locked)
                && vex == VexAfterExpiry(old(vex), now, lockedVex)
                && reevaluate == Touched(old(rows), old(vex), now, locked, lockedVex)
                && (committed <==> reevaluate != {})
      ensures |rows| == |old(rows)| && |vex| == |old(vex)|
      ensures forall i :: 0 <= i < |rows| ==>
                var r := old(rows)[i];
                rows[i] == if !old(isRunning) && !fails && r.status == Active && r.terms.validUntil <= now && i !in locked
                             then Row(r.terms, Expired, r.approval, false) else r
      ensures forall i :: 0 <= i < |vex| ==>
                var v := old(vex)[i];
                vex[i] == if !old(isRunning) && !fails && v.impact !in {ExpiredImpact, RevokedImpact} && v.validUntil <= now && i !in lockedVex
                            then VexRow(v.sbomId, ExpiredImpact, v.validUntil) else v
    {
      if isRunning {
        return false, {};
      }
      isRunning := true;
      var rowsBefore, eventsBefore, vexBefore := rows, events, vex;
      var touched := MarkExceptions(now, locked);
      var touchedVex := MarkVex(now, lockedVex);
      reevaluate := touched + touchedVex;
      assert reevaluate == Touched(rowsBefore, vexBefore, now, locked, lockedVex);
      committed := !fails && |reevaluate| > 0;
      if !committed {
        if !fails {
          NothingTouched(rowsBefore, vexBefore, now, locked, lockedVex);
        }
        rows, events, vex, reevaluate := rowsBefore, eventsBefore, vexBefore, {};
        assert events == old(events) + [];
      }
      isRunning := false;
    }

    method MarkExceptions(now: int, locked: set<nat>) returns (touched: set<string>)
      modifies this
      ensures rows == AfterExpiry(old(rows), now, locked)
      ensures events == old(events) + ExpiryEvents(old(rows), now, locked)
      ensures touched == set i | 0 <= i < |old(rows)| && Due(old(rows)[i], now) && i !in locked :: old(rows)[i].terms.sbomId
      ensures vex == old(vex) && isRunning == old(isRunning)
    {
      touched := {};
      ghost var before := rows;
      var i := 0;
      assert events == old(events) + [];
      while i < |rows|
        invariant 0 <= i <= |rows| == |before|
        invariant forall j :: 0 <= j < |rows| ==>
                    rows[j] == (if j < i && Due(before[j], now) && j !in locked then Lapsed(before[j]) else before[j])
        invariant events == old(events) + ExpiryEvents(before[..i], now, locked)
        invariant touched == set j | 0 <= j < i && Due(before[j], now) && j !in locked :: before[j].terms.sbomId
        invariant vex == old(vex) && isRunning == old(isRunning)
      {
        assert before[..i + 1][..i] == before[..i];
        var e := rows[i];
        if e.status.Active? && e.terms.validUntil <= now && i !in locked {
          rows := rows[i := e.(status := Expired, trusted := false)];
          touched := touched + {e.terms.sbomId};
          events := events + [Event(EXPIRED, i, Active)];
        }
        i := i + 1;
      }
      assert before[..i] == before;
    }

    method MarkVex(now: int, locked: set<nat>) returns (touched: set<string>)
      modifies this
      ensures vex == VexAfterExpiry(old(vex), now, locked)
      ensures touched == set i | 0 <= i < |old(vex)| && VexDue(old(vex)[i], now) && i !in locked :: old(vex)[i].sbomId
      ensures rows == old(rows) && events == old(events) && isRunning == old(isRunning)
    {
      touched := {};
      ghost var before := vex;
      var i := 0;
      while i < |vex|
        invariant 0 <= i <= |vex| == |before|
        invariant forall j :: 0 <= j < |vex| ==>
                    vex[j] == (if j < i && VexDue(before[j], now) && j !in locked then before[j].(impact := ExpiredImpact) else before[j])
        invariant touched == set j | 0 <= j < i && VexDue(before[j], now) && j !in locked :: before[j].sbomId
        invariant rows == old(rows) && events == old(events) && isRunning == old(isRunning)
      {
        if VexDue(vex[i], now) && i !in locked {
          touched := touched + {vex[i].sbomId};
          vex := vex[i := vex[i].(impact := ExpiredImpact)];
        }
        i := i + 1;
      }
    }
  }

  lemma DueIsTouched(rows: seq<Row>, vex: seq<VexRow>, now: int, locked: set<nat>, lockedVex: set<nat>, i: nat)
    requires i < |rows|
    ensures Due(rows[i], now) && i !in locked ==> rows[i].terms.sbomId in Touched(rows, vex, now, locked, lockedVex)
  {
  }

  lemma VexDueIsTouched(rows: seq<Row>, vex: seq<VexRow>, now: int, locked: set<nat>, lockedVex: set<nat>, i: nat)
    requires i < |vex|
    ensures VexDue(vex[i], now) && i !in lockedVex ==> vex[i].sbomId in Touched(rows, vex, now, locked, lockedVex)
  {
  }

  /** When no SBOM is to be re-evaluated nothing was due, so there is nothing to roll back. */
  lemma NothingTouched(rows: seq<Row>, vex: seq<VexRow>, now: int, locked: set<nat>, lockedVex: set<nat>)
    requires Touched(rows, vex, now, locked, lockedVex) == {}
    ensures AfterExpiry(rows, now, locked) == rows && ExpiryEvents(rows, now, locked) == [] && VexAfterExpiry(vex, now, lockedVex) == vex
  {
    forall i | 0 <= i < |rows| ensures !Due(rows[i], now) || i in locked {
      DueIsTouched(rows, vex, now, locked, lockedVex, i);
    }
    forall i | 0 <= i < |vex| ensures !VexDue(vex[i], now) || i in lockedVex {
      VexDueIsTouched(rows, vex, now, locked, lockedVex, i);
    }
    ExpiryEventsOf(rows, now, locked, 0);
  }

  /** A second run at the same instant changes nothing and logs nothing, whatever is locked by then. */
  lemma SecondExpiryRunIsIdle(rows: seq<Row>, now: int, locked: set<nat>)
    ensures var rows' := AfterExpiry(rows, now, {});
            AfterExpiry(rows', now, locked) == rows' && ExpiryEvents(rows', now, locked) == []
  {
    var rows' := AfterExpiry(rows, now, {});
    ExpiryEventsOf(rows', now, locked, 0);
  }

  // ---------------------------------------------------------------- requests that are let be

  lemma ThreeSteps(g: Governance, s: Sys, a: Step, b: Step, c: Step)
    ensures Run(g, s, [a, b, c]) == Next(g, Next(g, Next(g, s, a), b), c)
  {
    assert [a, b, c][..2] == [a, b] && [a, b][..1] == [a] && [a][..0] == [];
    assert Run(g, s, [a]) == Next(g, Run(g, s, []), a);
    assert Run(g, s, [a, b]) == Next(g, Run(g, s, [a]), b);
  }

  /**
   An approval that runs undisturbed activates the exception and is logged, exactly when the exception is still requested,
   the check passes and the approver is neither requester nor owner; else nothing is written or logged.
   */
  lemma UndisturbedApprovalIff(g: Governance, s: Sys, i: nat, a: Approval)
    requires i < |s.rows|
    ensures var k, r := |s.tasks|, s.rows[i];
            var s' := Run(g, s, [ReadToApprove(i, a), Commit(k), Log(k)]);
            var granted := r.status == Requested && Approvable(g, r.terms, a) && a.approver != r.terms.requestedBy && a.approver != r.terms.ownedBy;
            && s'.rows == (if granted then s.rows[i := Row(r.terms, Active, Some(a), true)] else s.rows)
            && s'.events == s.events + (if granted then [Event(APPROVED, i, Requested)] else [])
  {
    var k := |s.tasks|;
    ThreeSteps(g, s, ReadToApprove(i, a), Commit(k), Log(k));
  }

  /** So does a revocation, of an active exception alone. */
  lemma UndisturbedRevocationIff(g: Governance, s: Sys, i: nat)
    requires i < |s.rows|
    ensures var k, r := |s.tasks|, s.rows[i];
            var s' := Run(g, s, [ReadToRevoke(i), Commit(k), Log(k)]);
            && s'.rows == (if r.status == Active then s.rows[i := r.(status := Revoked)] else s.rows)
            && s'.events == s.events + (if r.status == Active then [Event(REVOKED, i, Active)] else [])
  {
    var k := |s.tasks|;
    ThreeSteps(g, s, ReadToRevoke(i), Commit(k), Log(k));
  }

  /** And a rejection, of a requested one alone, by neither its requester nor its owner. */
  lemma UndisturbedRejectionIff(g: Governance, s: Sys, i: nat, approver: string)
    requires i < |s.rows|
    ensures var k, r := |s.tasks|, s.rows[i];
            var s' := Run(g, s, [ReadToReject(i, approver), Commit(k), Log(k)]);
            var rejected := r.status == Requested && approver != r.terms.requestedBy && approver != r.terms.ownedBy;
            && s'.rows == (if rejected then s.rows[i := r.(status := RejectedStatus, trusted := false)] else s.rows)
            && s'.events == s.events + (if rejected then [Event(REJECTED, i, Requested)] else [])
  {
    var k := |s.tasks|;
    ThreeSteps(g, s, ReadToReject(i, approver), Commit(k), Log(k));
  }

  // ---------------------------------------------------------------- what the event log does not say

  /** A supersede request goes on to log its event although only an ACTIVE row is changed by it. */
  lemma SupersededEventIsTrueIff(g: Governance, s: Sys, k: nat)
    requires k < |s.tasks| && s.tasks[k].Superseding? && s.tasks[k].row < |s.rows|
    ensures var i := s.tasks[k].row;
            var s1 := Next(g, s, Commit(k));
            var s2 := Next(g, s1, Log(k));
            && s2.events == s.events + [Event(SUPERSEDED, i, s.tasks[k].read)]
            && (s1.rows[i].status.Superseded? <==> s.rows[i].status.Active? || s.rows[i].status.Superseded?)
  {
  }

  /** So a requested exception whose log says SUPERSEDED can still be approved and cover a finding. */
  lemma SupersededRequestCanBecomeActive(g: Governance, t: Terms, a: Approval)
    requires Approvable(g, t, a) && !StoreRefuses(t, a.approver)
    ensures var s := Run(g, Start, [Request(t), ReadToSupersede(0), Commit(1), Log(1), ReadToApprove(0, a), Commit(2)]);
            && s.rows == [Row(t, Active, Some(a), true)]
            && s.events == [Event(SUPERSEDED, 0, Requested)]
  {
    var requested := Logging(Event(REQUESTED, 0, Requested));
    var s1 := Next(g, Start, Request(t));
    assert s1.rows == [Row(t, Requested, None, false)] && s1.tasks == [requested];
    var s2 := Next(g, s1, ReadToSupersede(0));
    assert s2.tasks == [requested, Superseding(0, Requested)];
    var s3 := Next(g, s2, Commit(1));
    assert s3.tasks == [requested, Logging(Event(SUPERSEDED, 0, Requested))] && s3.rows == s1.rows;
    var s4 := Next(g, s3, Log(1));
    var s5 := Next(g, s4, ReadToApprove(0, a));
    assert s5.tasks == [requested, Finished, Approving(0, a)];
    var s6 := Next(g, s5, Commit(2));
    SixSteps(g, Request(t), ReadToSupersede(0), Commit(1), Log(1), ReadToApprove(0, a), Commit(2));
  }

  lemma SixSteps(g: Governance, a: Step, b: Step, c: Step, d: Step, e: Step, f: Step)
    ensures Run(g, Start, [a, b, c, d, e, f]) == Next(g, Next(g, Next(g, Next(g, Next(g, Next(g, Start, a), b), c), d), e), f)
  {
    assert [a, b, c, d, e, f][..5] == [a, b, c, d, e];
    assert [a, b, c, d, e][..4] == [a, b, c, d];
    assert [a, b, c, d][..3] == [a, b, c];
    assert [a, b, c][..2] == [a, b];
    assert [a, b][..1] == [a];
    assert [a][..0] == [];
    assert Run(g, Start, []) == Start;
    assert Run(g, Start, [a]) == Next(g, Start, a);
    assert Run(g, Start, [a, b]) == Next(g, Run(g, Start, [a]), b);
    assert Run(g, Start, [a, b, c]) == Next(g, Run(g, Start, [a, b]), c);
    assert Run(g, Start, [a, b, c, d]) == Next(g, Run(g, Start, [a, b, c]), d);
  }

  // ---------------------------------------------------------------- approval against use

  function RiskName(r: Risk): string {
    match r
    case LOW => "LOW"
    case MEDIUM => "MEDIUM"
    case HIGH => "HIGH"
    case CRITICAL => "CRITICAL"
    case OtherRisk => ""
  }

  /** An active row as the trust evaluation sees it; scope fields beyond release and rule are left open. */
  function AsEvidence(id: string, r: Row): T.ExceptionRecord
    requires r.approval.Some?
  {
    T.ExceptionRecord(id, if r.status.Active? then T.ActiveException else T.OtherException, r.trusted, r.terms.sbomId,
                      r.terms.policyRuleId, r.terms.digest, "", [], [], "", r.terms.validFrom, Some(r.terms.validUntil),
                      RiskName(r.terms.risk), r.terms.requestedBy, r.approval.value.approver, r.terms.hasPlan,
                      r.terms.controls != [])
  }

  /**
   The evaluation asks for a plan and for compensating controls always, the approval for a plan where the policy does and
   for controls at high risk only. So an approved exception meets the evaluation's governance demands exactly when it has
   both; one approved without is active and never usable.
   */
  lemma ApprovedIsUsableIffControlled(g: Governance, steps: seq<Step>, i: nat, id: string)
    requires i < |Run(g, Start, steps).rows| && Run(g, Start, steps).rows[i].status.Active?
    ensures var r := Run(g, Start, steps).rows[i];
            r.approval.Some? && (T.Governed(AsEvidence(id, r)) <==> r.terms.hasPlan && r.terms.controls != [])
  {
    RunIsGoverned(g, steps);
  }
}

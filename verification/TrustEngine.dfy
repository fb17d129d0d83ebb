/** From an evidence bundle to one of the four trust decisions. One clock reading serves the whole evaluation. */
module TrustEngine {
  import opened Prelude
  import C = ContextRisk

  // ---------------------------------------------------------------- evidence

  /** An empty string stands for a missing field throughout. */
  datatype Finding = Finding(id: string, cve: string, vulnerabilityId: string, componentId: string, critical: bool, declared: C.Applicability)

  datatype Document = Document(sbomId: string, sbomHash: string, findings: seq<Finding>)

  datatype Provenance = Provenance(valid: bool, levelZero: bool)

  datatype VexRecord = VexRecord(
    authoritative: bool, verified: bool, fingerprint: string, policyVersion: string, hasBinding: bool, payloadDigest: string,
    deleted: bool, judgedInvalid: bool, untrustedAssurance: bool, status: C.Applicability, vulnerabilityId: string)

  datatype ContextStatus = NoStatus | Active | InvalidConflicting | OtherStatus

  datatype ContextRecord = ContextRecord(
    status: ContextStatus, verified: bool, validUntil: Option<int>, hasId: bool, prodCritical: bool, vector: C.Vector)

  datatype ExceptionStatus = ActiveException | ExpiredException | RevokedException | OtherException

  /** `hasPlan`: the remediation plan is more than white space; `hasControls`: the list of controls is not empty. */
  datatype ExceptionRecord = ExceptionRecord(
    id: string, status: ExceptionStatus, trusted: bool, sbomId: string, policyRuleId: string, digest: string, environment: string,
    vulnerabilityIds: seq<string>, componentIds: seq<string>, policyVersion: string, validFrom: Option<int>,
    validUntil: Option<int>, residualRisk: string, requestedBy: string, approvedBy: string, hasPlan: bool,
    hasControls: bool)

  /** `version` after its default of 3.0; a risk with zero hours, or none, sets no bound. */
  datatype Policy = Policy(version: string, contextRequired: bool, maxHours: map<string, nat>)

  datatype Bundle = Bundle(
    document: Option<Document>, provenance: seq<Provenance>, signatures: seq<bool>, vex: seq<VexRecord>,
    contexts: seq<ContextRecord>, exceptions: seq<ExceptionRecord>)

  datatype TrustStatus = TRUSTED | CONDITIONALLY_ACCEPTED | REVIEW_REQUIRED | REJECTED

  /** What the decision rests on. */
  datatype Ground =
    NoDocument | NoProvenance | NoSignature | ContextBlocking | CoveredByException | ContextReview | IdleException | AllPassed

  datatype Decision = Decision(status: TrustStatus, ground: Ground)

  // ---------------------------------------------------------------- assembling: context

  predicate CountsAsActive(c: ContextRecord, now: int) {
    c.status.Active? && c.verified && (c.validUntil.Some? ==> c.validUntil.value > now)
  }

  predicate Legacy(contexts: seq<ContextRecord>) {
    |contexts| == 1 && contexts[0].status.NoStatus?
  }

  function ActiveContexts(contexts: seq<ContextRecord>, now: int): seq<ContextRecord> {
    if contexts == [] then []
    else
      var rest := ActiveContexts(contexts[..|contexts| - 1], now);
      if CountsAsActive(contexts[|contexts| - 1], now) then rest + [contexts[|contexts| - 1]] else rest
  }

  ghost predicate HasConflictRecord(contexts: seq<ContextRecord>) {
    exists i :: 0 <= i < |contexts| && contexts[i].status.InvalidConflicting?
  }

  /** The one usable context, whether contexts conflict, and whether an unauthenticated one was offered where one is required. */
  datatype ContextView = ContextView(active: Option<ContextRecord>, conflict: bool, invalid: bool)

  ghost function ViewOf(contexts: seq<ContextRecord>, required: bool, now: int): ContextView {
    if Legacy(contexts) then ContextView(Some(contexts[0]), false, required)
    else
      var active := ActiveContexts(contexts, now);
      if HasConflictRecord(contexts) || |active| > 1 then ContextView(None, true, false)
      else ContextView(if |active| == 1 then Some(active[0]) else None, false, false)
  }

  const NoVector := C.Vector(C.NoEnvironment, C.UnknownExposure, false, false, false, C.UnknownPresence, C.UnknownRuntime)

  /** The legacy production tier makes its asset critical. */
  function VectorOf(active: Option<ContextRecord>): C.Vector {
    if active.None? then NoVector
    else if active.value.prodCritical then active.value.vector.(criticalAsset := true)
    else active.value.vector
  }

  // ---------------------------------------------------------------- assembling: VEX

  predicate UsableVex(v: VexRecord) {
    && v.authoritative && v.verified && v.fingerprint != "" && v.policyVersion != "" && v.hasBinding && v.payloadDigest != ""
    && !v.deleted && !v.judgedInvalid && !v.untrustedAssurance
  }

  function ActiveVex(vex: seq<VexRecord>): (active: seq<VexRecord>)
    ensures forall i :: 0 <= i < |active| ==> UsableVex(active[i])
  {
    if vex == [] then []
    else
      var rest := ActiveVex(vex[..|vex| - 1]);
      if UsableVex(vex[|vex| - 1]) then rest + [vex[|vex| - 1]] else rest
  }

  function KeyOf(f: Finding): string {
    if f.id != "" then f.id else if f.cve != "" then f.cve else f.vulnerabilityId
  }

  /** The first usable statement about the finding, or its declared applicability. */
  function ApplicabilityOf(f: Finding, active: seq<VexRecord>): C.Applicability {
    if active == [] then f.declared
    else if active[0].vulnerabilityId == KeyOf(f) then active[0].status
    else ApplicabilityOf(f, active[1..])
  }

  function Assessed(active: seq<VexRecord>): Finding -> C.Vulnerability {
    (f: Finding) => C.Vulnerability(ApplicabilityOf(f, active), f.critical)
  }

  // ---------------------------------------------------------------- assembling: exceptions

  predicate Mentions(f: Finding, id: string) {
    f.id == id || f.cve == id || f.vulnerabilityId == id
  }

  predicate SomeMentions(fs: seq<Finding>, id: string) {
    exists j :: 0 <= j < |fs| && Mentions(fs[j], id)
  }

  predicate SomeIn(fs: seq<Finding>, componentId: string) {
    exists j :: 0 <= j < |fs| && fs[j].componentId == componentId
  }

  function EnvironmentName(e: C.Environment): string {
    match e
    case NoEnvironment => ""
    case UnknownEnvironment => "UNKNOWN"
    case Development => "DEVELOPMENT"
    case Test => "TEST"
    case Staging => "STAGING"
    case Production => "PRODUCTION"
  }

  predicate InTime(e: ExceptionRecord, policy: Policy, now: int) {
    && (e.validFrom.Some? ==> e.validFrom.value <= now)
    && (e.validUntil.Some? ==> e.validUntil.value > now)
    && (e.validUntil.Some? && e.residualRisk != "" && e.residualRisk in policy.maxHours && policy.maxHours[e.residualRisk] > 0 ==>
          e.validUntil.value - (if e.validFrom.Some? then e.validFrom.value else now) <= policy.maxHours[e.residualRisk] * 3_600_000)
  }

  ghost predicate InScope(e: ExceptionRecord, doc: Document, environment: C.Environment, policy: Policy) {
    && (e.sbomId != "" && doc.sbomId != "" ==> e.sbomId == doc.sbomId)
    && (e.policyRuleId != "" ==> e.policyRuleId in {"CAECTD-R017", "CAECTD-R024", "CR-001"})
    && (e.digest != "" && doc.sbomHash != "" ==> e.digest == doc.sbomHash)
    && (e.environment != "" ==> e.environment == EnvironmentName(environment))
    && (forall i :: 0 <= i < |e.vulnerabilityIds| ==> SomeMentions(doc.findings, e.vulnerabilityIds[i]))
    && (forall i :: 0 <= i < |e.componentIds| ==> SomeIn(doc.findings, e.componentIds[i]))
    && (e.policyVersion != "" && e.policyVersion != "unknown" ==> e.policyVersion == policy.version)
  }

  predicate Governed(e: ExceptionRecord) {
    && (e.requestedBy != "" && e.approvedBy != "" ==> e.requestedBy != e.approvedBy)
    && e.hasPlan && e.hasControls
  }

  /** An exception that may cover a blocking finding. */
  ghost predicate Usable(e: ExceptionRecord, doc: Document, environment: C.Environment, policy: Policy, now: int) {
    e.status.ActiveException? && e.trusted && InScope(e, doc, environment, policy) && InTime(e, policy, now) && Governed(e)
  }

  ghost predicate SomeUsable(es: seq<ExceptionRecord>, doc: Document, environment: C.Environment, policy: Policy, now: int) {
    exists i :: 0 <= i < |es| && Usable(es[i], doc, environment, policy, now)
  }

  // ---------------------------------------------------------------- the assembled input

  ghost function InputOf(b: Bundle, doc: Document, policy: Policy, now: int): C.Input {
    var view := ViewOf(b.contexts, policy.contextRequired, now);
    var active := ActiveVex(b.vex);
    var vector := VectorOf(view.active);
    var usable := SomeUsable(b.exceptions, doc, vector.environment, policy, now);
    C.Input(view.conflict || |active| > 1, view.invalid, policy.contextRequired && view.active.None? && !view.conflict, false,
            policy.contextRequired, Map(doc.findings, Assessed(active)), |active| == 1, true, true, true, vector, usable, usable,
            view.active.Some? && view.active.value.hasId)
  }

  method ViewContexts(contexts: seq<ContextRecord>, required: bool, now: int) returns (view: ContextView)
    ensures view == ViewOf(contexts, required, now)
  {
    if |contexts| == 1 && contexts[0].status.NoStatus? {
      return ContextView(Some(contexts[0]), false, required);
    }
    var active: seq<ContextRecord> := [];
    var conflicting := 0;
    var i := 0;
    while i < |contexts|
      invariant 0 <= i <= |contexts|
      invariant active == ActiveContexts(contexts[..i], now)
      invariant conflicting > 0 <==> exists j :: 0 <= j < i && contexts[j].status.InvalidConflicting?
      invariant conflicting >= 0
    {
      assert contexts[..i + 1][..i] == contexts[..i];
      if CountsAsActive(contexts[i], now) {
        active := active + [contexts[i]];
      }
      if contexts[i].status.InvalidConflicting? {
        conflicting := conflicting + 1;
      }
      i := i + 1;
    }
    assert contexts[..i] == contexts;
    if |active| == 1 && conflicting == 0 {
      return ContextView(Some(active[0]), false, false);
    } else if conflicting > 0 {
      return ContextView(None, true, false);
    } else if |active| > 1 {
      return ContextView(None, true, false);
    }
    return ContextView(None, false, false);
  }

  method AllMentioned(ids: seq<string>, findings: seq<Finding>) returns (all: bool)
    ensures all <==> forall i :: 0 <= i < |ids| ==> SomeMentions(findings, ids[i])
  {
    var i := 0;
    while i < |ids|
      invariant 0 <= i <= |ids|
      invariant forall k :: 0 <= k < i ==> SomeMentions(findings, ids[k])
    {
      if !SomeMentions(findings, ids[i]) {
        return false;
      }
      i := i + 1;
    }
    return true;
  }

  method AllComponents(ids: seq<string>, findings: seq<Finding>) returns (all: bool)
    ensures all <==> forall i :: 0 <= i < |ids| ==> SomeIn(findings, ids[i])
  {
    var i := 0;
    while i < |ids|
      invariant 0 <= i <= |ids|
      invariant forall k :: 0 <= k < i ==> SomeIn(findings, ids[k])
    {
      if !SomeIn(findings, ids[i]) {
        return false;
      }
      i := i + 1;
    }
    return true;
  }

  /** The filter of the assembler, check by check. */
  method IsUsable(e: ExceptionRecord, doc: Document, environment: C.Environment, policy: Policy, now: int) returns (ok: bool)
    ensures ok <==> Usable(e, doc, environment, policy, now)
  {
    if !e.status.ActiveException? || !e.trusted { return false; }
    if e.sbomId != "" && doc.sbomId != "" && e.sbomId != doc.sbomId { return false; }
    if e.policyRuleId != "" && e.policyRuleId !in {"CAECTD-R017", "CAECTD-R024", "CR-001"} { return false; }
    if e.digest != "" && doc.sbomHash != "" && e.digest != doc.sbomHash { return false; }
    if e.environment != "" && e.environment != EnvironmentName(environment) { return false; }
    var hasAllVulns := AllMentioned(e.vulnerabilityIds, doc.findings);
    if !hasAllVulns { return false; }
    var hasAllComps := AllComponents(e.componentIds, doc.findings);
    if !hasAllComps { return false; }
    if e.policyVersion != "" && e.policyVersion != "unknown" && e.policyVersion != policy.version { return false; }
    var fromDate := now;
    if e.validFrom.Some? {
      fromDate := e.validFrom.value;
      if fromDate > now { return false; }
    }
    if e.validUntil.Some? {
      var untilDate := e.validUntil.value;
      if untilDate <= now { return false; }
      if e.residualRisk != "" && e.residualRisk in policy.maxHours && policy.maxHours[e.residualRisk] > 0 {
        if untilDate - fromDate > policy.maxHours[e.residualRisk] * 3_600_000 { return false; }
      }
    }
    if e.requestedBy != "" && e.approvedBy != "" && e.requestedBy == e.approvedBy { return false; }
    return e.hasPlan && e.hasControls;
  }

  /** Also returns the exception id that is reported: that of the first exception in the list, usable or not. */
  method AssembleContextRiskEvidence(b: Bundle, doc: Document, policy: Policy, now: int)
    returns (input: C.Input, exceptionId: Option<string>)
    ensures input == InputOf(b, doc, policy, now)
    ensures exceptionId == if input.exceptionActive then Some(b.exceptions[0].id) else None
  {
    var view := ViewContexts(b.contexts, policy.contextRequired, now);
    var conflict := view.conflict;
    var missingContext := policy.contextRequired && view.active.None? && !conflict;
    var vector := VectorOf(view.active);
    var activeVex := ActiveVex(b.vex);
    var vexTrusted := false;
    if |activeVex| == 1 {
      vexTrusted := true;
    } else if |activeVex| > 1 {
      conflict := true;
    }
    var vulns: seq<C.Vulnerability> := [];
    var i := 0;
    while i < |doc.findings|
      invariant 0 <= i <= |doc.findings|
      invariant |vulns| == i && forall j :: 0 <= j < i ==> vulns[j] == Assessed(activeVex)(doc.findings[j])
    {
      vulns := vulns + [C.Vulnerability(ApplicabilityOf(doc.findings[i], activeVex), doc.findings[i].critical)];
      i := i + 1;
    }
    assert vulns == Map(doc.findings, Assessed(activeVex));
    var usable := false;
    i := 0;
    while i < |b.exceptions|
      invariant 0 <= i <= |b.exceptions|
      invariant usable <==> exists j :: 0 <= j < i && Usable(b.exceptions[j], doc, vector.environment, policy, now)
    {
      var ok := IsUsable(b.exceptions[i], doc, vector.environment, policy, now);
      if ok {
        usable := true;
      }
      i := i + 1;
    }
    input := C.Input(conflict, view.invalid, missingContext, false, policy.contextRequired, vulns, vexTrusted, true, true, true,
                     vector, usable, usable, view.active.Some? && view.active.value.hasId);
    exceptionId := if usable then Some(b.exceptions[0].id) else None;
  }

  // ---------------------------------------------------------------- the decision

  ghost predicate HasDocument(b: Bundle) {
    b.document.Some? && b.document.value.sbomId != ""
  }

  ghost predicate HasProvenance(b: Bundle) {
    exists i :: 0 <= i < |b.provenance| && b.provenance[i].valid && !b.provenance[i].levelZero
  }

  ghost predicate HasSignature(b: Bundle) {
    true in b.signatures
  }

  ghost predicate HasActiveException(b: Bundle) {
    exists i :: 0 <= i < |b.exceptions| && b.exceptions[i].status.ActiveException?
  }

  ghost function OutcomeOf(b: Bundle, policy: Policy, now: int): C.Outcome
    requires HasDocument(b)
  {
    C.OutcomeOf(InputOf(b, b.document.value, policy, now))
  }

  ghost function DecisionOf(b: Bundle, policy: Policy, now: int): Decision {
    if !HasDocument(b) then Decision(REJECTED, NoDocument)
    else if !HasProvenance(b) then Decision(REJECTED, NoProvenance)
    else if !HasSignature(b) then Decision(REJECTED, NoSignature)
    else
      var o := OutcomeOf(b, policy, now);
      match o.blocking
      case Blocked => if o.conditionallyAccepted then Decision(CONDITIONALLY_ACCEPTED, CoveredByException) else Decision(REJECTED, ContextBlocking)
      case ReviewRequired => Decision(REVIEW_REQUIRED, ContextReview)
      case NonBlocking => if HasActiveException(b) then Decision(REVIEW_REQUIRED, IdleException) else Decision(TRUSTED, AllPassed)
  }

  method EvaluateTrust(b: Bundle, policy: Policy, now: int) returns (d: Decision)
    ensures d == DecisionOf(b, policy, now)
  {
    d := Decision(REJECTED, NoDocument);
    if b.document.None? || b.document.value.sbomId == "" {
      return;
    }
    var validProv := false;
    var i := 0;
    while i < |b.provenance| && !validProv
      invariant 0 <= i <= |b.provenance|
      invariant validProv ==> HasProvenance(b)
      invariant !validProv ==> forall j :: 0 <= j < i ==> !(b.provenance[j].valid && !b.provenance[j].levelZero)
    {
      validProv := b.provenance[i].valid && !b.provenance[i].levelZero;
      i := i + 1;
    }
    if !validProv {
      return Decision(REJECTED, NoProvenance);
    }
    var validSig := false;
    i := 0;
    while i < |b.signatures| && !validSig
      invariant 0 <= i <= |b.signatures|
      invariant validSig ==> HasSignature(b)
      invariant !validSig ==> forall j :: 0 <= j < i ==> !b.signatures[j]
    {
      validSig := b.signatures[i];
      i := i + 1;
    }
    if !validSig {
      return Decision(REJECTED, NoSignature);
    }
    var input, _ := AssembleContextRiskEvidence(b, b.document.value, policy, now);
    var contextResult := C.EvaluateContextRisk(input);
    if contextResult.blocking.Blocked? {
      if contextResult.conditionallyAccepted {
        d := Decision(CONDITIONALLY_ACCEPTED, CoveredByException);
      } else {
        d := Decision(REJECTED, ContextBlocking);
      }
    } else if contextResult.blocking.ReviewRequired? {
      d := Decision(REVIEW_REQUIRED, ContextReview);
    } else {
      var hasActive := false;
      i := 0;
      while i < |b.exceptions|
        invariant 0 <= i <= |b.exceptions|
        invariant hasActive <==> exists j :: 0 <= j < i && b.exceptions[j].status.ActiveException?
      {
        if b.exceptions[i].status.ActiveException? {
          hasActive := true;
        }
        i := i + 1;
      }
      d := if hasActive then Decision(REVIEW_REQUIRED, IdleException) else Decision(TRUSTED, AllPassed);
    }
  }

  // ---------------------------------------------------------------- what exceptions can and cannot do

  ghost predicate CoversBlocking(b: Bundle, policy: Policy, now: int)
    requires HasDocument(b)
  {
    SomeUsable(b.exceptions, b.document.value, VectorOf(ViewOf(b.contexts, policy.contextRequired, now).active).environment, policy, now)
  }

  lemma ExceptionsOnlyMarkTheInput(b: Bundle, policy: Policy, now: int)
    requires HasDocument(b)
    ensures var i, i0 := InputOf(b, b.document.value, policy, now), InputOf(b.(exceptions := []), b.document.value, policy, now);
            && i0 == i.(exceptionActive := false, exceptionTrusted := false)
            && (i.exceptionActive <==> CoversBlocking(b, policy, now)) && i.exceptionTrusted == i.exceptionActive
  {
  }

  function Unmarked(i: C.Input): C.Input {
    i.(exceptionActive := false, exceptionTrusted := false)
  }

  lemma MarkedOutcome(i: C.Input)
    requires i.exceptionTrusted == i.exceptionActive && !i.classAFailure
    ensures var o, o0 := C.OutcomeOf(i), C.OutcomeOf(Unmarked(i));
            && o0 == o.(conditionallyAccepted := false)
            && (o.conditionallyAccepted <==> o.blocking.Blocked? && i.exceptionActive)
  {
    C.SameFold(i, Unmarked(i), i.vulnerabilities);
  }

  /**
   Compared with no exceptions at all, a list of them changes nothing, or turns a context-blocking rejection into a
   conditional acceptance, exactly when one of them is usable, or turns trust into a review, exactly when one of them is
   marked ACTIVE. It never creates trust.
   */
  lemma ExceptionsCannotManufactureTrust(b: Bundle, policy: Policy, now: int)
    ensures var d, d0 := DecisionOf(b, policy, now), DecisionOf(b.(exceptions := []), policy, now);
            d == if d0 == Decision(REJECTED, ContextBlocking) && CoversBlocking(b, policy, now)
                   then Decision(CONDITIONALLY_ACCEPTED, CoveredByException)
                 else if d0 == Decision(TRUSTED, AllPassed) && HasActiveException(b) then Decision(REVIEW_REQUIRED, IdleException)
                 else d0
  {
    var b0 := b.(exceptions := []);
    assert HasDocument(b0) == HasDocument(b) && HasProvenance(b0) == HasProvenance(b) && HasSignature(b0) == HasSignature(b);
    assert !HasActiveException(b0);
    if HasDocument(b) {
      ExceptionsOnlyMarkTheInput(b, policy, now);
      MarkedOutcome(InputOf(b, b.document.value, policy, now));
    }
  }

  /** In particular: active, unexpired, with a plan and controls, and approved by someone else than its requester. */
  lemma ConditionalAcceptanceIsGoverned(b: Bundle, policy: Policy, now: int) returns (k: nat)
    requires DecisionOf(b, policy, now).status == CONDITIONALLY_ACCEPTED
    ensures k < |b.exceptions| && HasProvenance(b) && HasSignature(b)
    ensures var e := b.exceptions[k];
            && e.status.ActiveException? && e.trusted && e.hasPlan && e.hasControls
            && (e.validUntil.Some? ==> now < e.validUntil.value)
            && (e.requestedBy != "" && e.approvedBy != "" ==> e.requestedBy != e.approvedBy)
            && (e.sbomId != "" ==> e.sbomId == b.document.value.sbomId)
  {
    ConditionalAcceptanceIff(b, policy, now);
    MandatoryIff(b);
    var environment := InputOf(b, b.document.value, policy, now).vector.environment;
    k :| 0 <= k < |b.exceptions| && Usable(b.exceptions[k], b.document.value, environment, policy, now);
  }

  // ---------------------------------------------------------------- the four states, from the evidence

  /** The mandatory checks: an identified document, sound provenance, a verified signature. */
  ghost predicate MandatoryPassed(b: Bundle) {
    && b.document.Some? && b.document.value.sbomId != ""
    && (exists k :: 0 <= k < |b.provenance| && b.provenance[k].valid && !b.provenance[k].levelZero)
    && (exists k :: 0 <= k < |b.signatures| && b.signatures[k])
  }

  /** One clear context where one is required, and no two usable statements. */
  ghost predicate ClearContext(i: C.Input) {
    !i.conflict && !i.invalidContext && !i.missingContext
  }

  lemma MandatoryIff(b: Bundle)
    ensures MandatoryPassed(b) <==> HasDocument(b) && HasProvenance(b) && HasSignature(b)
  {
    if HasSignature(b) {
      var k :| 0 <= k < |b.signatures| && b.signatures[k] == true;
    }
  }

  /** Rejected: a mandatory check fails, or a vulnerability threatens in its context and no usable exception covers it. */
  lemma RejectedIff(b: Bundle, policy: Policy, now: int)
    ensures DecisionOf(b, policy, now).status == REJECTED <==>
            || b.document.None? || b.document.value.sbomId == ""
            || (forall k :: 0 <= k < |b.provenance| ==> !b.provenance[k].valid || b.provenance[k].levelZero)
            || (forall k :: 0 <= k < |b.signatures| ==> !b.signatures[k])
            || var i := InputOf(b, b.document.value, policy, now);
               && ClearContext(i) && C.SomeThreat(i)
               && forall k :: 0 <= k < |b.exceptions| ==> !Usable(b.exceptions[k], b.document.value, i.vector.environment, policy, now)
  {
    MandatoryIff(b);
    if HasDocument(b) {
      C.OutcomeIff(InputOf(b, b.document.value, policy, now));
    }
  }

  /** The reason that is given with a rejection, in the order of the checks. */
  lemma RejectionGround(b: Bundle, policy: Policy, now: int)
    ensures var ground := DecisionOf(b, policy, now).ground;
            var document := b.document.Some? && b.document.value.sbomId != "";
            var provenance := exists k :: 0 <= k < |b.provenance| && b.provenance[k].valid && !b.provenance[k].levelZero;
            var signature := exists k :: 0 <= k < |b.signatures| && b.signatures[k];
            && (ground == NoDocument <==> !document)
            && (ground == NoProvenance <==> document && !provenance)
            && (ground == NoSignature <==> document && provenance && !signature)
            && (ground == ContextBlocking <==> document && provenance && signature && DecisionOf(b, policy, now).status == REJECTED)
  {
    if HasSignature(b) {
      var k :| 0 <= k < |b.signatures| && b.signatures[k] == true;
    }
  }

  /** Conditionally accepted: the same threat under a usable exception. */
  lemma ConditionalAcceptanceIff(b: Bundle, policy: Policy, now: int)
    ensures DecisionOf(b, policy, now).status == CONDITIONALLY_ACCEPTED <==>
            && MandatoryPassed(b)
            && var i := InputOf(b, b.document.value, policy, now);
               && ClearContext(i) && C.SomeThreat(i)
               && exists k :: 0 <= k < |b.exceptions| && Usable(b.exceptions[k], b.document.value, i.vector.environment, policy, now)
  {
    MandatoryIff(b);
    if HasDocument(b) {
      C.OutcomeIff(InputOf(b, b.document.value, policy, now));
    }
  }

  /** To be reviewed: an unclear context, or no threat but a doubt, or nothing to object to except an ACTIVE exception. */
  lemma ReviewIff(b: Bundle, policy: Policy, now: int)
    ensures DecisionOf(b, policy, now).status == REVIEW_REQUIRED <==>
            && MandatoryPassed(b)
            && var i := InputOf(b, b.document.value, policy, now);
               || !ClearContext(i)
               || (!C.SomeThreat(i) &&
                     (|| C.SomeDoubt(i)
                      || (b.document.value.findings == [] && policy.contextRequired && i.vector.environment == C.NoEnvironment)
                      || exists k :: 0 <= k < |b.exceptions| && b.exceptions[k].status == ActiveException))
  {
    MandatoryIff(b);
    if HasDocument(b) {
      C.OutcomeIff(InputOf(b, b.document.value, policy, now));
    }
  }

  /** Trusted: a clear context without threat or doubt, and no exception marked ACTIVE. */
  lemma TrustedIff(b: Bundle, policy: Policy, now: int)
    ensures DecisionOf(b, policy, now).status == TRUSTED <==>
            && MandatoryPassed(b)
            && (forall k :: 0 <= k < |b.exceptions| ==> b.exceptions[k].status != ActiveException)
            && var i := InputOf(b, b.document.value, policy, now);
               && ClearContext(i) && !C.SomeThreat(i) && !C.SomeDoubt(i)
               && !(b.document.value.findings == [] && policy.contextRequired && i.vector.environment == C.NoEnvironment)
  {
    MandatoryIff(b);
    if HasDocument(b) {
      C.OutcomeIff(InputOf(b, b.document.value, policy, now));
    }
  }

  // ---------------------------------------------------------------- which evidence counts

  lemma {:induction false} ActiveContextsOf(contexts: seq<ContextRecord>, now: int)
    ensures forall c :: c in ActiveContexts(contexts, now) <==> c in contexts && CountsAsActive(c, now)
    ensures |ActiveContexts(contexts, now)| > 1 <==>
            exists i, j :: 0 <= i < j < |contexts| && CountsAsActive(contexts[i], now) && CountsAsActive(contexts[j], now)
    ensures |ActiveContexts(contexts, now)| > 0 <==> exists i :: 0 <= i < |contexts| && CountsAsActive(contexts[i], now)
  {
    if contexts != [] {
      var n := |contexts| - 1;
      ActiveContextsOf(contexts[..n], now);
      InitLast(contexts);
      assert forall i :: 0 <= i < n ==> contexts[..n][i] == contexts[i];
    }
  }

  /** Which context an evaluation sees. A single record without a status is taken as it is, and unauthenticated. */
  lemma ViewIff(contexts: seq<ContextRecord>, required: bool, now: int)
    ensures var view := ViewOf(contexts, required, now);
            var legacy := |contexts| == 1 && contexts[0].status == NoStatus;
            && (view.conflict <==>
                  !legacy && ((exists i :: 0 <= i < |contexts| && contexts[i].status == InvalidConflicting)
                              || exists i, j :: 0 <= i < j < |contexts| && CountsAsActive(contexts[i], now) && CountsAsActive(contexts[j], now)))
            && (view.invalid <==> legacy && required)
            && (legacy ==> view.active == Some(contexts[0]))
            && (forall i :: 0 <= i < |contexts| && !view.conflict && CountsAsActive(contexts[i], now) ==> view.active == Some(contexts[i]))
            && (view.active.None? <==> !legacy && (view.conflict || forall i :: 0 <= i < |contexts| ==> !CountsAsActive(contexts[i], now)))
    ensures forall i :: 0 <= i < |contexts| ==>
              (CountsAsActive(contexts[i], now) <==>
                 contexts[i].status == Active && contexts[i].verified && (contexts[i].validUntil == None || now < contexts[i].validUntil.value))
  {
    ActiveContextsOf(contexts, now);
    var active := ActiveContexts(contexts, now);
    forall i | 0 <= i < |contexts| && |active| == 1 && CountsAsActive(contexts[i], now) ensures active[0] == contexts[i] {
      assert contexts[i] in active;
    }
  }

  lemma {:induction false} ActiveVexOf(vex: seq<VexRecord>)
    ensures |ActiveVex(vex)| > 1 <==> exists i, j :: 0 <= i < j < |vex| && UsableVex(vex[i]) && UsableVex(vex[j])
    ensures |ActiveVex(vex)| > 0 <==> exists i :: 0 <= i < |vex| && UsableVex(vex[i])
  {
    if vex != [] {
      var n := |vex| - 1;
      ActiveVexOf(vex[..n]);
      assert forall i :: 0 <= i < n ==> vex[..n][i] == vex[i];
    }
  }

  /** The input of the fold, field by field, from the records of the bundle. */
  lemma InputIff(b: Bundle, doc: Document, policy: Policy, now: int)
    ensures var i, view := InputOf(b, doc, policy, now), ViewOf(b.contexts, policy.contextRequired, now);
            && (i.conflict <==> view.conflict || exists j, k :: 0 <= j < k < |b.vex| && UsableVex(b.vex[j]) && UsableVex(b.vex[k]))
            && (i.invalidContext <==> view.invalid)
            && (i.missingContext <==> policy.contextRequired && view.active == None && !view.conflict)
            && (i.vexTrusted <==>
                  && (exists j :: 0 <= j < |b.vex| && UsableVex(b.vex[j]))
                  && !exists j, k :: 0 <= j < k < |b.vex| && UsableVex(b.vex[j]) && UsableVex(b.vex[k]))
            && i.vector == (match view.active
                            case None => C.Vector(C.NoEnvironment, C.UnknownExposure, false, false, false, C.UnknownPresence, C.UnknownRuntime)
                            case Some(c) => c.vector.(criticalAsset := c.prodCritical || c.vector.criticalAsset))
            && (i.hasAssertion <==> view.active.Some? && view.active.value.hasId)
            && (i.exceptionActive <==> exists k :: 0 <= k < |b.exceptions| && Usable(b.exceptions[k], doc, i.vector.environment, policy, now))
            && i.exceptionTrusted == i.exceptionActive && i.contextRequired == policy.contextRequired
            && i.vexCurrent && i.vexExactScope && i.presenceTrusted && !i.classAFailure
            && |i.vulnerabilities| == |doc.findings|
            && forall k :: 0 <= k < |doc.findings| ==> i.vulnerabilities[k].critical == doc.findings[k].critical
  {
    ActiveVexOf(b.vex);
  }

  /** Statement k is the first usable one about the finding: about its id, its CVE if it has none, or else its vulnerability id. */
  ghost predicate FirstAbout(f: Finding, vex: seq<VexRecord>, k: nat) {
    k < |vex| && UsableVex(vex[k]) && About(f, vex[k]) && forall j :: 0 <= j < k ==> !(UsableVex(vex[j]) && About(f, vex[j]))
  }

  ghost predicate About(f: Finding, v: VexRecord) {
    || (f.id != "" && v.vulnerabilityId == f.id)
    || (f.id == "" && f.cve != "" && v.vulnerabilityId == f.cve)
    || (f.id == "" && f.cve == "" && v.vulnerabilityId == f.vulnerabilityId)
  }

  lemma {:induction false} AnotherStatement(f: Finding, active: seq<VexRecord>, v: VexRecord)
    ensures ApplicabilityOf(f, active + [v]) ==
            if exists k :: 0 <= k < |active| && active[k].vulnerabilityId == KeyOf(f) then ApplicabilityOf(f, active)
            else if v.vulnerabilityId == KeyOf(f) then v.status else f.declared
  {
    if active == [] {
      assert [v][1..] == [];
      assert active + [v] == [v];
    } else {
      AnotherStatement(f, active[1..], v);
      assert (active + [v])[1..] == active[1..] + [v];
      assert forall k :: 0 < k < |active| ==> active[k] == active[1..][k - 1];
      assert forall k :: 0 <= k < |active| - 1 ==> active[1..][k] == active[k + 1];
    }
  }

  lemma {:induction false} AboutSurvives(f: Finding, vex: seq<VexRecord>)
    ensures (exists k :: 0 <= k < |ActiveVex(vex)| && ActiveVex(vex)[k].vulnerabilityId == KeyOf(f)) <==>
            exists k :: 0 <= k < |vex| && UsableVex(vex[k]) && About(f, vex[k])
  {
    if vex != [] {
      var n := |vex| - 1;
      var rest := ActiveVex(vex[..n]);
      AboutSurvives(f, vex[..n]);
      assert forall k :: 0 <= k < n ==> vex[..n][k] == vex[k];
      if UsableVex(vex[n]) {
        assert ActiveVex(vex) == rest + [vex[n]];
        assert forall k :: 0 <= k < |rest| ==> ActiveVex(vex)[k] == rest[k];
        assert ActiveVex(vex)[|rest|] == vex[n];
      } else {
        assert ActiveVex(vex) == rest;
      }
    }
  }

  lemma LastStatement(f: Finding, init: seq<VexRecord>, v: VexRecord)
    ensures ApplicabilityOf(f, ActiveVex(init + [v])) ==
            if (exists k :: 0 <= k < |init| && UsableVex(init[k]) && About(f, init[k])) then ApplicabilityOf(f, ActiveVex(init))
            else if UsableVex(v) && About(f, v) then v.status
            else ApplicabilityOf(f, ActiveVex(init))
    ensures (forall k :: 0 <= k < |init| ==> !(UsableVex(init[k]) && About(f, init[k]))) ==> ApplicabilityOf(f, ActiveVex(init)) == f.declared
  {
    assert (init + [v])[..|init|] == init;
    AboutSurvives(f, init);
    NoneLeavesDeclaration(f, ActiveVex(init));
    if UsableVex(v) {
      AnotherStatement(f, ActiveVex(init), v);
    }
  }

  lemma {:induction false} NoneLeavesDeclaration(f: Finding, active: seq<VexRecord>)
    ensures (forall k :: 0 <= k < |active| ==> active[k].vulnerabilityId != KeyOf(f)) ==> ApplicabilityOf(f, active) == f.declared
  {
    if active != [] {
      NoneLeavesDeclaration(f, active[1..]);
      assert forall k :: 0 <= k < |active| - 1 ==> active[1..][k] == active[k + 1];
    }
  }

  /** A finding is judged by the first usable statement about it and, without one, as the document declares it. */
  lemma {:induction false} FirstStatementDecides(f: Finding, vex: seq<VexRecord>)
    ensures forall k: nat :: FirstAbout(f, vex, k) ==> ApplicabilityOf(f, ActiveVex(vex)) == vex[k].status
    ensures (forall k :: 0 <= k < |vex| ==> !(UsableVex(vex[k]) && About(f, vex[k]))) ==> ApplicabilityOf(f, ActiveVex(vex)) == f.declared
  {
    if vex != [] {
      var n := |vex| - 1;
      var init := vex[..n];
      InitLast(vex);
      FirstStatementDecides(f, init);
      LastStatement(f, init, vex[n]);
      assert forall k :: 0 <= k < n ==> init[k] == vex[k];
      forall k: nat | FirstAbout(f, vex, k) ensures ApplicabilityOf(f, ActiveVex(vex)) == vex[k].status {
        if k < n {
          assert FirstAbout(f, init, k);
        }
      }
    }
  }

  /** A statement with any of these faults might as well not be there. */
  lemma FaultyVexIsIgnored(b: Bundle, policy: Policy, now: int, k: nat)
    requires k < |b.vex|
    requires var v := b.vex[k];
             || !v.authoritative || !v.verified || v.fingerprint == "" || v.policyVersion == "" || !v.hasBinding
             || v.payloadDigest == "" || v.deleted || v.judgedInvalid || v.untrustedAssurance
    ensures DecisionOf(b, policy, now) == DecisionOf(b.(vex := b.vex[..k] + b.vex[k + 1..]), policy, now)
  {
    SplitAround(b.vex, k);
    ActiveVexAround(b.vex[..k], b.vex[k], b.vex[k + 1..]);
    SameActiveVex(b, b.(vex := b.vex[..k] + b.vex[k + 1..]), policy, now);
  }

  lemma ActiveVexAround(before: seq<VexRecord>, v: VexRecord, after: seq<VexRecord>)
    requires !UsableVex(v)
    ensures ActiveVex(before + ([v] + after)) == ActiveVex(before + after)
  {
    ActiveVexConcat(before, after);
    ActiveVexConcat(before, [v] + after);
    ActiveVexConcat([v], after);
    assert [v][..0] == [];
    assert ActiveVex([v]) == [];
  }

  /** A statement without any of them counts. */
  lemma FaultlessVexCounts(v: VexRecord)
    requires v.authoritative && v.verified && v.fingerprint != "" && v.policyVersion != "" && v.hasBinding
    requires v.payloadDigest != "" && !v.deleted && !v.judgedInvalid && !v.untrustedAssurance
    ensures UsableVex(v)
  {
  }

  lemma SameActiveVex(b: Bundle, b': Bundle, policy: Policy, now: int)
    requires b' == b.(vex := b'.vex) && ActiveVex(b.vex) == ActiveVex(b'.vex)
    ensures DecisionOf(b, policy, now) == DecisionOf(b', policy, now)
  {
    if HasDocument(b) {
      assert InputOf(b, b.document.value, policy, now) == InputOf(b', b.document.value, policy, now);
    }
  }

  lemma {:induction false} ActiveVexConcat(xs: seq<VexRecord>, ys: seq<VexRecord>)
    ensures ActiveVex(xs + ys) == ActiveVex(xs) + ActiveVex(ys)
  {
    if ys == [] {
      assert xs + ys == xs;
    } else {
      ActiveVexConcat(xs, ys[..|ys| - 1]);
      ConcatSnoc(xs, ys);
      var zs := xs + ys;
      assert zs[..|zs| - 1] == xs + ys[..|ys| - 1];
    }
  }

  /** The faults of an exception: any of them keeps it from covering a threat. */
  ghost predicate Faulty(e: ExceptionRecord, doc: Document, environment: C.Environment, policy: Policy, now: int) {
    || e.status != ActiveException || !e.trusted
    || (e.sbomId != "" && doc.sbomId != "" && e.sbomId != doc.sbomId)
    || (e.policyRuleId != "" && e.policyRuleId != "CAECTD-R017" && e.policyRuleId != "CAECTD-R024" && e.policyRuleId != "CR-001")
    || (e.digest != "" && doc.sbomHash != "" && e.digest != doc.sbomHash)
    || (e.environment != "" && !Names(e.environment, environment))
    || (exists id :: id in e.vulnerabilityIds && forall f :: f in doc.findings ==> f.id != id && f.cve != id && f.vulnerabilityId != id)
    || (exists id :: id in e.componentIds && forall f :: f in doc.findings ==> f.componentId != id)
    || (e.policyVersion != "" && e.policyVersion != "unknown" && e.policyVersion != policy.version)
    || (e.validFrom.Some? && now < e.validFrom.value)
    || (e.validUntil.Some? && e.validUntil.value <= now)
    || LastsTooLong(e, policy, now)
    || (e.requestedBy != "" && e.requestedBy == e.approvedBy)
    || !e.hasPlan || !e.hasControls
  }

  ghost predicate Names(name: string, environment: C.Environment) {
    || (environment == C.Production && name == "PRODUCTION")
    || (environment == C.Staging && name == "STAGING")
    || (environment == C.Test && name == "TEST")
    || (environment == C.Development && name == "DEVELOPMENT")
    || (environment == C.UnknownEnvironment && name == "UNKNOWN")
  }

  /** It ends more hours after its start, or after now if it names no start, than the policy grants its residual risk. */
  ghost predicate LastsTooLong(e: ExceptionRecord, policy: Policy, now: int) {
    && e.validUntil.Some? && e.residualRisk != "" && e.residualRisk in policy.maxHours
    && var hours := policy.maxHours[e.residualRisk];
       hours > 0 && e.validUntil.value > (if e.validFrom.Some? then e.validFrom.value else now) + hours * 60 * 60 * 1000
  }

  lemma MentionedIff(fs: seq<Finding>, id: string)
    ensures SomeMentions(fs, id) <==> exists f :: f in fs && (f.id == id || f.cve == id || f.vulnerabilityId == id)
    ensures SomeIn(fs, id) <==> exists f :: f in fs && f.componentId == id
  {
    if f :| f in fs && (f.id == id || f.cve == id || f.vulnerabilityId == id) {
      var j :| 0 <= j < |fs| && fs[j] == f;
      assert Mentions(fs[j], id);
    }
    if f :| f in fs && f.componentId == id {
      var j :| 0 <= j < |fs| && fs[j] == f;
    }
  }

  lemma ScopeFaults(e: ExceptionRecord, doc: Document)
    ensures (exists k :: 0 <= k < |e.vulnerabilityIds| && !SomeMentions(doc.findings, e.vulnerabilityIds[k])) <==>
            exists id :: id in e.vulnerabilityIds && forall f :: f in doc.findings ==> f.id != id && f.cve != id && f.vulnerabilityId != id
    ensures (exists k :: 0 <= k < |e.componentIds| && !SomeIn(doc.findings, e.componentIds[k])) <==>
            exists id :: id in e.componentIds && forall f :: f in doc.findings ==> f.componentId != id
  {
    forall id
      ensures SomeMentions(doc.findings, id) <==> !forall f :: f in doc.findings ==> f.id != id && f.cve != id && f.vulnerabilityId != id
      ensures SomeIn(doc.findings, id) <==> !forall f :: f in doc.findings ==> f.componentId != id
    {
      MentionedIff(doc.findings, id);
    }
    if id :| id in e.vulnerabilityIds && !SomeMentions(doc.findings, id) {
      var k :| 0 <= k < |e.vulnerabilityIds| && e.vulnerabilityIds[k] == id;
    }
    if id :| id in e.componentIds && !SomeIn(doc.findings, id) {
      var k :| 0 <= k < |e.componentIds| && e.componentIds[k] == id;
    }
  }

  lemma NamesIff(name: string, environment: C.Environment)
    ensures name != "" ==> (name == EnvironmentName(environment) <==> Names(name, environment))
  {
  }

  lemma TimeFaults(e: ExceptionRecord, policy: Policy, now: int)
    ensures !InTime(e, policy, now) <==>
            || (e.validFrom.Some? && now < e.validFrom.value)
            || (e.validUntil.Some? && e.validUntil.value <= now)
            || LastsTooLong(e, policy, now)
  {
  }

  /** An exception is usable exactly when it is without fault. */
  lemma UsableIffFaultless(e: ExceptionRecord, doc: Document, environment: C.Environment, policy: Policy, now: int)
    ensures Usable(e, doc, environment, policy, now) <==> !Faulty(e, doc, environment, policy, now)
  {
    ScopeFaults(e, doc);
    TimeFaults(e, policy, now);
    NamesIff(e.environment, environment);
  }

  /**
   A document that passes the mandatory checks and has, in its one clear context, a critical finding in open production,
   affected or not spoken of, in a component that is not absent and not dormant, is rejected, or accepted under a
   faultless exception, and nothing else.
   */
  lemma ExposedFindingIsNotTrusted(b: Bundle, policy: Policy, now: int, k: nat, c: ContextRecord)
    requires MandatoryPassed(b) && k < |b.document.value.findings| && b.document.value.findings[k].critical
    requires b.contexts == [c] && c.status == Active && c.verified && (c.validUntil == None || now < c.validUntil.value)
    requires c.vector.environment == C.Production && c.vector.exposure in {C.Public, C.RestrictedPublic}
    requires c.vector.presence != C.NotPresent && !(c.vector.presence == C.Present && c.vector.runtime == C.PresentNotExecuted)
    requires |b.vex| <= 1
    requires forall v :: v in b.vex ==> !About(b.document.value.findings[k], v) || v.status in {C.AffectedVex, C.FixedVex, C.UnknownVex}
    requires b.document.value.findings[k].declared in {C.AffectedVex, C.FixedVex, C.UnknownVex}
    ensures DecisionOf(b, policy, now) ==
            if exists j :: 0 <= j < |b.exceptions| && !Faulty(b.exceptions[j], b.document.value, C.Production, policy, now)
              then Decision(CONDITIONALLY_ACCEPTED, CoveredByException)
            else Decision(REJECTED, ContextBlocking)
  {
    var doc := b.document.value;
    var i := InputOf(b, doc, policy, now);
    MandatoryIff(b);
    ExposedFindingThreatens(b, policy, now, k, c);
    C.OutcomeIff(i);
    forall j | 0 <= j < |b.exceptions|
      ensures Usable(b.exceptions[j], doc, C.Production, policy, now) <==> !Faulty(b.exceptions[j], doc, C.Production, policy, now)
    {
      UsableIffFaultless(b.exceptions[j], doc, C.Production, policy, now);
    }
  }

  lemma OneClearContext(b: Bundle, policy: Policy, now: int, c: ContextRecord)
    requires HasDocument(b) && b.contexts == [c] && CountsAsActive(c, now) && |b.vex| <= 1
    ensures var i := InputOf(b, b.document.value, policy, now);
            && ClearContext(i) && i.vector == VectorOf(Some(c))
            && (i.exceptionActive <==> SomeUsable(b.exceptions, b.document.value, c.vector.environment, policy, now))
            && i.exceptionTrusted == i.exceptionActive && !i.classAFailure
  {
    ViewIff(b.contexts, policy.contextRequired, now);
    ActiveVexOf(b.vex);
  }

  lemma ExposedFindingThreatens(b: Bundle, policy: Policy, now: int, k: nat, c: ContextRecord)
    requires MandatoryPassed(b) && k < |b.document.value.findings| && b.document.value.findings[k].critical
    requires b.contexts == [c] && c.status == Active && c.verified && (c.validUntil == None || now < c.validUntil.value)
    requires c.vector.environment == C.Production && c.vector.exposure in {C.Public, C.RestrictedPublic}
    requires c.vector.presence != C.NotPresent && !(c.vector.presence == C.Present && c.vector.runtime == C.PresentNotExecuted)
    requires |b.vex| <= 1
    requires forall v :: v in b.vex ==> !About(b.document.value.findings[k], v) || v.status in {C.AffectedVex, C.FixedVex, C.UnknownVex}
    requires b.document.value.findings[k].declared in {C.AffectedVex, C.FixedVex, C.UnknownVex}
    ensures var i := InputOf(b, b.document.value, policy, now);
            ClearContext(i) && C.SomeThreat(i) && i.vector.environment == C.Production
            && (i.exceptionActive <==> exists j :: 0 <= j < |b.exceptions| && Usable(b.exceptions[j], b.document.value, C.Production, policy, now))
            && i.exceptionTrusted == i.exceptionActive && !i.classAFailure
  {
    var doc := b.document.value;
    var f := doc.findings[k];
    var i := InputOf(b, doc, policy, now);
    OneClearContext(b, policy, now, c);
    FindingIsJudged(f, b.vex);
    assert i.vulnerabilities[k] == Assessed(ActiveVex(b.vex))(f);
    assert i.vulnerabilities[k] in i.vulnerabilities;
    assert C.Threatens(i, i.vulnerabilities[k]);
  }

  lemma FindingIsJudged(f: Finding, vex: seq<VexRecord>)
    requires |vex| <= 1 && f.declared in {C.AffectedVex, C.FixedVex, C.UnknownVex}
    requires forall v :: v in vex ==> !About(f, v) || v.status in {C.AffectedVex, C.FixedVex, C.UnknownVex}
    ensures ApplicabilityOf(f, ActiveVex(vex)) in {C.AffectedVex, C.FixedVex, C.UnknownVex}
  {
    FirstStatementDecides(f, vex);
    if exists k :: 0 <= k < |vex| && UsableVex(vex[k]) && About(f, vex[k]) {
      assert FirstAbout(f, vex, 0);
      assert vex[0] in vex;
    }
  }

  /** Two usable VEX statements, be they about different vulnerabilities, count as a conflict: the context then never rejects. */
  lemma SecondVexStatementMasksBlocking(b: Bundle, policy: Policy, now: int)
    requires HasDocument(b) && HasProvenance(b) && HasSignature(b) && |ActiveVex(b.vex)| >= 2
    ensures DecisionOf(b, policy, now) == Decision(REVIEW_REQUIRED, ContextReview)
  {
  }

  // ---------------------------------------------------------------- what a not-affected verdict rests on

  /** The finding is taken as not exploitable because it is taken as not affected. */
  predicate Excused(i: C.Input, v: C.Vulnerability) {
    v.vex.NotAffectedVex? && C.Exploitation(i, v).0.NotExploitable?
  }

  /** The first usable statement about the finding says not affected. */
  ghost predicate RestsOnStatement(f: Finding, active: seq<VexRecord>) {
    exists k :: 0 <= k < |active| && active[k].vulnerabilityId == KeyOf(f) && active[k].status.NotAffectedVex?
      && forall j :: 0 <= j < k ==> active[j].vulnerabilityId != KeyOf(f)
  }

  lemma {:induction false} ApplicabilityComesFrom(f: Finding, active: seq<VexRecord>)
    ensures ApplicabilityOf(f, active).NotAffectedVex? <==>
            || RestsOnStatement(f, active)
            || (f.declared.NotAffectedVex? && forall k :: 0 <= k < |active| ==> active[k].vulnerabilityId != KeyOf(f))
  {
    if active != [] && active[0].vulnerabilityId != KeyOf(f) {
      ApplicabilityComesFrom(f, active[1..]);
      if RestsOnStatement(f, active[1..]) {
        var k :| 0 <= k < |active[1..]| && active[1..][k].vulnerabilityId == KeyOf(f) && active[1..][k].status.NotAffectedVex?
                 && forall j :: 0 <= j < k ==> active[1..][j].vulnerabilityId != KeyOf(f);
        assert active[k + 1].vulnerabilityId == KeyOf(f);
        assert forall j :: 1 <= j < k + 1 ==> active[j] == active[1..][j - 1];
      }
      if RestsOnStatement(f, active) {
        var k :| 0 <= k < |active| && active[k].vulnerabilityId == KeyOf(f) && active[k].status.NotAffectedVex?
                 && forall j :: 0 <= j < k ==> active[j].vulnerabilityId != KeyOf(f);
        assert active[1..][k - 1].vulnerabilityId == KeyOf(f);
      }
      assert forall k :: 1 <= k < |active| ==> active[k] == active[1..][k - 1];
    }
  }

  /**
   A finding is excused exactly when there is one usable statement in all and either that statement says so or, the
   statement being about another vulnerability, the document itself declares it. So the excuse rests on a usable statement
   about the finding iff the one statement is about it.
   */
  lemma ExcusedIff(b: Bundle, policy: Policy, now: int, f: Finding)
    requires HasDocument(b) && f in b.document.value.findings
    ensures var active := ActiveVex(b.vex);
            var i := InputOf(b, b.document.value, policy, now);
            var about := |active| == 1 && active[0].vulnerabilityId == KeyOf(f);
            && (Excused(i, Assessed(active)(f)) <==>
                  |active| == 1 && if about then active[0].status.NotAffectedVex? else f.declared.NotAffectedVex?)
            && (Excused(i, Assessed(active)(f)) ==> (RestsOnStatement(f, active) <==> about))
  {
    ApplicabilityComesFrom(f, ActiveVex(b.vex));
  }

  /** In particular a self-declared finding is excused by a statement about something else, and by that alone. */
  lemma DeclarationExcusedByAnyStatement(b: Bundle, policy: Policy, now: int, f: Finding)
    requires HasDocument(b) && f in b.document.value.findings && f.declared.NotAffectedVex?
    requires forall k :: 0 <= k < |ActiveVex(b.vex)| ==> ActiveVex(b.vex)[k].vulnerabilityId != KeyOf(f)
    ensures Excused(InputOf(b, b.document.value, policy, now), Assessed(ActiveVex(b.vex))(f)) <==> |ActiveVex(b.vex)| == 1
    ensures !RestsOnStatement(f, ActiveVex(b.vex))
  {
    ExcusedIff(b, policy, now, f);
  }
}

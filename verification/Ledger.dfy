/**
 The ledger contract: SBOM records, their lifecycle, and the trust decisions and evidence recorded beside them.
 Every transaction is a method of class Ledger, proved against a transition function on the world state.
 */
module LedgerModel {
  import opened Prelude

  // ---------------------------------------------------------------- world state

  /** A Go slice of strings: nil and the empty slice are different values. */
  type Slice = Option<seq<string>>

  /** The status constants; Pending is accepted by one transaction and written by none. */
  datatype Lifecycle =
    Registered | Pending | ReviewPending | SecurityReviewed | Compliant | Approved | Active | Superseded | Rejected

  /** A trustStatus string; Unset is the empty one. */
  datatype Trust =
    Unset | Trusted | ConditionallyAccepted | ReviewRequired | Refused | Untrusted | Unevaluated | Other(text: string)

  datatype Msp = VendorMSP | SecurityMSP | AuditorMSP | ForeignMSP(name: string)

  /** Who calls and when. The client identity may be unreadable. */
  datatype Context = Context(msp: Msp, identity: Option<string>, now: int)

  /** What SubmitSBOM is given and no transaction changes afterwards. */
  datatype Origin = Origin(
    hash: string, buildID: string, softwareName: string, softwareVersion: string, format: string, offChainRef: string,
    signatures: Slice, policyStatus: string, policyReason: string, policyViolations: Slice, policyEvaluationMode: string)

  datatype TrustFields = TrustFields(
    status: Trust, reasonCode: string, reasonDesc: string, evaluatedAt: int, evaluatedBy: string,
    provenanceHash: string, signatureHashes: Slice, activeVexIds: Slice, effectiveRiskScore: real)

  datatype Record = Record(
    sbomID: string, origin: Origin, status: Lifecycle, timestamp: int, submitterID: string, trust: TrustFields)

  datatype DecisionInput = DecisionInput(
    version: string, sbomID: string, decisionId: string, trustStatus: Trust, reasonCode: string, reasonDescription: string,
    policyVersion: string, idempotencyKey: string, provenanceHash: string, signatureHashes: Slice, activeVexIds: Slice,
    effectiveRiskScore: real, evidenceBundleHash: string)

  /** A stored decision pointer, as it reads back from its JSON. */
  datatype Pointer = Pointer(
    decisionId: string, sbomID: string, trustStatus: Trust, reasonCode: string, reasonDescription: string,
    policyVersion: string, idempotencyKey: string, provenanceHash: string, signatureHashes: Slice, activeVexIds: Slice,
    effectiveRiskScore: real, evidenceBundleHash: string, recordedAt: int, recordedBy: string)

  datatype EvidenceInput = EvidenceInput(
    version: string, sbomID: string, evidenceType: string, evidenceHash: string, evidenceId: string, evidencePayload: string)

  datatype Evidence = Evidence(
    evidenceId: string, sbomID: string, evidenceType: string, evidenceHash: string, evidencePayload: string,
    recordedAt: int, recordedBy: string)

  datatype Key = Key(sbomID: string, artifact: string)

  /** The world state, the per-key history the ledger keeps, and the TrustDecisionRecorded events in order. */
  datatype World = World(
    sboms: map<string, Record>, history: map<string, seq<Record>>,
    decisions: map<Key, Pointer>, evidence: map<Key, Evidence>, events: seq<Pointer>)

  const EmptyWorld := World(map[], map[], map[], map[], [])

  datatype Error =
    | MissingField | InvalidFormat | NoSignature | AlreadyExists | NotFound | NoIdentity
    | WrongStatus(current: Lifecycle) | TrustBlocked(trust: Trust)
    | UnsupportedVersion | InvalidDigest | UnauthorizedMsp | NotADecision(given: Trust) | ConflictingPayload

  type Reply = Result<(), Error>

  // ---------------------------------------------------------------- the small rules

  function EnsureSlice(s: Slice): Slice {
    if s == None then Some([]) else s
  }

  function EnsureOriginSlices(o: Origin): Origin {
    o.(signatures := EnsureSlice(o.signatures), policyViolations := EnsureSlice(o.policyViolations))
  }

  function EnsureTrustSlices(t: TrustFields): TrustFields {
    t.(signatureHashes := EnsureSlice(t.signatureHashes), activeVexIds := EnsureSlice(t.activeVexIds))
  }

  function EnsureSlices(r: Record): Record {
    r.(origin := EnsureOriginSlices(r.origin), trust := EnsureTrustSlices(r.trust))
  }

  /** A field tagged omitempty: an empty slice is not written, and an absent one reads back as nil. */
  function OmitEmpty(s: Slice): Slice {
    if s == Some([]) then None else s
  }

  predicate IsHex(c: char) {
    '0' <= c <= '9' || 'a' <= c <= 'f'
  }

  predicate IsDigest(d: string) {
    |d| == 71 && d[..7] == "sha256:" && forall i :: 7 <= i < 71 ==> IsHex(d[i])
  }

  predicate DigestsValid(input: DecisionInput) {
    && (input.provenanceHash == "" || IsDigest(input.provenanceHash))
    && (input.signatureHashes.Some? ==>
          forall i :: 0 <= i < |input.signatureHashes.value| ==> IsDigest(input.signatureHashes.value[i]))
  }

  predicate IsDecision(t: Trust) {
    t.Trusted? || t.ConditionallyAccepted? || t.ReviewRequired? || t.Refused?
  }

  /** The approve and activate switches: every named non-TRUSTED status blocks, anything else falls through. */
  predicate Blocks(t: Trust) {
    t.Refused? || t.Untrusted? || t.ReviewRequired? || t.Unevaluated? || t.ConditionallyAccepted?
  }

  datatype Move = ToReviewPending | ToSecurityReviewed | MarkCompliant | Approve | Activate | Supersede | Reject

  /** The lifecycle table. */
  predicate Allowed(m: Move, from: Lifecycle) {
    match m
    case ToReviewPending => from.Registered? || from.Pending?
    case ToSecurityReviewed => from.ReviewPending?
    case MarkCompliant => from.SecurityReviewed?
    case Approve => from.Compliant?
    case Activate => from.Approved?
    case Supersede => from.Approved? || from.Active?
    case Reject => !from.Superseded? && !from.Rejected?
  }

  function Target(m: Move): Lifecycle {
    match m
    case ToReviewPending => ReviewPending
    case ToSecurityReviewed => SecurityReviewed
    case MarkCompliant => Compliant
    case Approve => Approved
    case Activate => Active
    case Supersede => Superseded
    case Reject => Rejected
  }

  predicate Gated(m: Move) {
    m.Approve? || m.Activate?
  }

  // ---------------------------------------------------------------- transitions

  datatype Tx =
    | Submit(sbomID: string, origin: Origin)
    | Transition(move: Move, sbomID: string)
    | Decide(decision: DecisionInput)
    | Attest(attestation: EvidenceInput)

  function Past(w: World, id: string): seq<Record> {
    if id in w.history then w.history[id] else []
  }

  function PutRecord(w: World, id: string, r: Record): World {
    w.(sboms := w.sboms[id := r], history := w.history[id := Past(w, id) + [r]])
  }

  const NoTrust := TrustFields(Unset, "", "", 0, "", "", None, None, 0.0)

  function SubmitReply(w: World, ctx: Context, id: string, o: Origin): Reply {
    if id == "" || o.hash == "" || o.buildID == "" || o.softwareName == "" || o.softwareVersion == "" || o.format == ""
       || o.offChainRef == "" then Err(MissingField)
    else if o.format != "SPDX" && o.format != "CycloneDX" then Err(InvalidFormat)
    else if o.signatures == None || o.signatures == Some([]) then Err(NoSignature)
    else if id in w.sboms then Err(AlreadyExists)
    else if ctx.identity.None? then Err(NoIdentity)
    else Ok(())
  }

  function MoveReply(w: World, ctx: Context, m: Move, id: string): Reply {
    if id == "" then Err(MissingField)
    else if id !in w.sboms then Err(NotFound)
    else
      var r := w.sboms[id];
      if !Allowed(m, r.status) then Err(WrongStatus(r.status))
      else if Gated(m) && Blocks(r.trust.status) then Err(TrustBlocked(r.trust.status))
      else if ctx.identity.None? then Err(NoIdentity)
      else Ok(())
  }

  function Moved(r: Record, ctx: Context, m: Move): Record
    requires ctx.identity.Some?
  {
    r.(status := Target(m), submitterID := ctx.identity.value, timestamp := ctx.now)
  }

  /** The fields of a stored decision that a second submission is compared with. */
  predicate SamePayload(p: Pointer, d: DecisionInput) {
    && p.trustStatus == d.trustStatus && p.reasonCode == d.reasonCode && p.reasonDescription == d.reasonDescription
    && p.policyVersion == d.policyVersion && p.idempotencyKey == d.idempotencyKey && p.provenanceHash == d.provenanceHash
    && p.evidenceBundleHash == d.evidenceBundleHash && p.signatureHashes == d.signatureHashes
    && p.activeVexIds == d.activeVexIds && p.effectiveRiskScore == d.effectiveRiskScore
  }

  /** The checks that precede any look at the world state. */
  function DecisionCheck(ctx: Context, d: DecisionInput): Reply {
    if d.version != "3.0" then Err(UnsupportedVersion)
    else if d.sbomID == "" || d.decisionId == "" || d.trustStatus.Unset? then Err(MissingField)
    else if !DigestsValid(d) then Err(InvalidDigest)
    else if !ctx.msp.SecurityMSP? && !ctx.msp.AuditorMSP? then Err(UnauthorizedMsp)
    else if !IsDecision(d.trustStatus) then Err(NotADecision(d.trustStatus))
    else Ok(())
  }

  function DecisionKey(d: DecisionInput): Key {
    Key(d.sbomID, d.decisionId)
  }

  function DecideReply(w: World, ctx: Context, d: DecisionInput): Reply {
    if DecisionCheck(ctx, d).Err? then DecisionCheck(ctx, d)
    else if DecisionKey(d) in w.decisions then
      if SamePayload(w.decisions[DecisionKey(d)], d) then Ok(()) else Err(ConflictingPayload)
    else if d.sbomID !in w.sboms then Err(NotFound)
    else Ok(())
  }

  function CallerName(ctx: Context): string {
    if ctx.identity.Some? then ctx.identity.value else "unknown"
  }

  function Inherit(given: Slice, stored: Slice): Slice {
    if given.Some? then given else EnsureSlice(stored)
  }

  function DecidedTrust(prior: TrustFields, ctx: Context, d: DecisionInput): TrustFields {
    TrustFields(d.trustStatus, d.reasonCode, d.reasonDescription, ctx.now, CallerName(ctx), d.provenanceHash,
                Inherit(d.signatureHashes, prior.signatureHashes), Inherit(d.activeVexIds, prior.activeVexIds),
                d.effectiveRiskScore)
  }

  function PointerOf(d: DecisionInput, t: TrustFields): Pointer {
    Pointer(d.decisionId, d.sbomID, d.trustStatus, d.reasonCode, d.reasonDescription, d.policyVersion, d.idempotencyKey,
            d.provenanceHash, OmitEmpty(t.signatureHashes), OmitEmpty(t.activeVexIds), d.effectiveRiskScore,
            d.evidenceBundleHash, t.evaluatedAt, t.evaluatedBy)
  }

  function Decided(r: Record, ctx: Context, d: DecisionInput): Record {
    EnsureSlices(r).(trust := DecidedTrust(r.trust, ctx, d))
  }

  function PutDecision(w: World, ctx: Context, d: DecisionInput): World
    requires d.sbomID in w.sboms
  {
    var r := Decided(w.sboms[d.sbomID], ctx, d);
    var p := PointerOf(d, r.trust);
    PutRecord(w, d.sbomID, r).(decisions := w.decisions[DecisionKey(d) := p], events := w.events + [p])
  }

  function EvidenceKey(e: EvidenceInput): Key {
    Key(e.sbomID, e.evidenceId)
  }

  function EvidenceOf(e: EvidenceInput, ctx: Context): Evidence {
    Evidence(e.evidenceId, e.sbomID, e.evidenceType, e.evidenceHash, e.evidencePayload, ctx.now, CallerName(ctx))
  }

  predicate SameEvidence(stored: Evidence, e: EvidenceInput) {
    stored.evidenceType == e.evidenceType && stored.evidenceHash == e.evidenceHash && stored.evidencePayload == e.evidencePayload
  }

  function AttestReply(w: World, ctx: Context, e: EvidenceInput): Reply {
    if e.version != "3.0" then Err(UnsupportedVersion)
    else if e.sbomID == "" || e.evidenceId == "" || e.evidenceHash == "" then Err(MissingField)
    else if !IsDigest(e.evidenceHash) then Err(InvalidDigest)
    else if ctx.msp.ForeignMSP? then Err(UnauthorizedMsp)
    else if EvidenceKey(e) in w.evidence then
      if SameEvidence(w.evidence[EvidenceKey(e)], e) then Ok(()) else Err(ConflictingPayload)
    else if e.sbomID !in w.sboms then Err(NotFound)
    else Ok(())
  }

  function ReplyTo(w: World, ctx: Context, tx: Tx): Reply {
    match tx
    case Submit(id, o) => SubmitReply(w, ctx, id, o)
    case Transition(m, id) => MoveReply(w, ctx, m, id)
    case Decide(d) => DecideReply(w, ctx, d)
    case Attest(e) => AttestReply(w, ctx, e)
  }

  /** The record a submission creates. */
  function Created(ctx: Context, id: string, o: Origin): Record
    requires ctx.identity.Some?
  {
    EnsureSlices(Record(id, o, Registered, ctx.now, ctx.identity.value, NoTrust))
  }

  /** The world state after a transaction; a failed one leaves no trace. */
  function Apply(w: World, ctx: Context, tx: Tx): World {
    if ReplyTo(w, ctx, tx).Err? then w
    else
      match tx
      case Submit(id, o) => PutRecord(w, id, Created(ctx, id, o))
      case Transition(m, id) => PutRecord(w, id, Moved(w.sboms[id], ctx, m))
      case Decide(d) => if DecisionKey(d) in w.decisions then w else PutDecision(w, ctx, d)
      case Attest(e) =>
        if EvidenceKey(e) in w.evidence then w else w.(evidence := w.evidence[EvidenceKey(e) := EvidenceOf(e, ctx)])
  }

  // ---------------------------------------------------------------- queries

  datatype Verification = Verification(sbomID: string, submittedHash: string, storedHash: string, matches: bool, status: Lifecycle)

  function VerifyIntegrity(w: World, id: string, submittedHash: string): Result<Verification, Error> {
    if id == "" || submittedHash == "" then Err(MissingField)
    else if id !in w.sboms then Err(NotFound)
    else
      var r := w.sboms[id];
      Ok(Verification(r.sbomID, submittedHash, r.origin.hash, submittedHash == r.origin.hash, r.status))
  }

  function GetTrustDecision(w: World, id: string, decisionId: string): Result<Pointer, Error> {
    if id == "" || decisionId == "" then Err(MissingField)
    else if Key(id, decisionId) !in w.decisions then Err(NotFound)
    else
      var p := w.decisions[Key(id, decisionId)];
      Ok(p.(signatureHashes := EnsureSlice(p.signatureHashes), activeVexIds := EnsureSlice(p.activeVexIds)))
  }

  // ---------------------------------------------------------------- the contract

  class Ledger {
    var sboms: map<string, Record>
    var history: map<string, seq<Record>>
    var decisions: map<Key, Pointer>
    var evidence: map<Key, Evidence>
    var events: seq<Pointer>

    function State(): World
      reads this
    {
      World(sboms, history, decisions, evidence, events)
    }

    constructor ()
      ensures State() == EmptyWorld
    {
      sboms, history, decisions, evidence, events := map[], map[], map[], map[], [];
    }

    method PutState(id: string, r: Record)
      modifies this
      ensures State() == PutRecord(old(State()), id, r)
    {
      sboms := sboms[id := r];
      var past := if id in history then history[id] else [];
      history := history[id := past + [r]];
    }

    method SubmitSBOM(ctx: Context, sbomID: string, origin: Origin) returns (reply: Reply)
      modifies this
      ensures reply == ReplyTo(old(State()), ctx, Submit(sbomID, origin))
      ensures State() == Apply(old(State()), ctx, Submit(sbomID, origin))
    {
      if sbomID == "" { return Err(MissingField); }
      if origin.hash == "" || origin.buildID == "" || origin.softwareName == "" { return Err(MissingField); }
      if origin.softwareVersion == "" || origin.format == "" || origin.offChainRef == "" { return Err(MissingField); }
      if origin.format != "SPDX" && origin.format != "CycloneDX" { return Err(InvalidFormat); }
      if origin.signatures == None || |origin.signatures.value| == 0 { return Err(NoSignature); }
      if sbomID in sboms { return Err(AlreadyExists); }
      if ctx.identity.None? { return Err(NoIdentity); }
      var record := Record(sbomID, origin, Registered, ctx.now, ctx.identity.value, NoTrust);
      PutState(sbomID, EnsureSlices(record));
      return Ok(());
    }

    method MoveToReviewPending(ctx: Context, sbomID: string) returns (reply: Reply)
      modifies this
      ensures reply == ReplyTo(old(State()), ctx, Transition(ToReviewPending, sbomID))
      ensures State() == Apply(old(State()), ctx, Transition(ToReviewPending, sbomID))
    {
      if sbomID == "" { return Err(MissingField); }
      if sbomID !in sboms { return Err(NotFound); }
      var record := sboms[sbomID];
      if record.status != Registered && record.status != Pending { return Err(WrongStatus(record.status)); }
      if ctx.identity.None? { return Err(NoIdentity); }
      record := record.(status := ReviewPending, submitterID := ctx.identity.value, timestamp := ctx.now);
      PutState(sbomID, record);
      return Ok(());
    }

    method MoveToSecurityReviewed(ctx: Context, sbomID: string) returns (reply: Reply)
      modifies this
      ensures reply == ReplyTo(old(State()), ctx, Transition(ToSecurityReviewed, sbomID))
      ensures State() == Apply(old(State()), ctx, Transition(ToSecurityReviewed, sbomID))
    {
      if sbomID == "" { return Err(MissingField); }
      if sbomID !in sboms { return Err(NotFound); }
      var record := sboms[sbomID];
      if record.status != ReviewPending { return Err(WrongStatus(record.status)); }
      if ctx.identity.None? { return Err(NoIdentity); }
      record := record.(status := SecurityReviewed, submitterID := ctx.identity.value, timestamp := ctx.now);
      PutState(sbomID, record);
      return Ok(());
    }

    method MarkCompliant(ctx: Context, sbomID: string) returns (reply: Reply)
      modifies this
      ensures reply == ReplyTo(old(State()), ctx, Transition(Move.MarkCompliant, sbomID))
      ensures State() == Apply(old(State()), ctx, Transition(Move.MarkCompliant, sbomID))
    {
      if sbomID == "" { return Err(MissingField); }
      if sbomID !in sboms { return Err(NotFound); }
      var record := sboms[sbomID];
      if record.status != SecurityReviewed { return Err(WrongStatus(record.status)); }
      if ctx.identity.None? { return Err(NoIdentity); }
      record := record.(status := Compliant, submitterID := ctx.identity.value, timestamp := ctx.now);
      PutState(sbomID, record);
      return Ok(());
    }

    method ApproveSBOM(ctx: Context, sbomID: string) returns (reply: Reply)
      modifies this
      ensures reply == ReplyTo(old(State()), ctx, Transition(Approve, sbomID))
      ensures State() == Apply(old(State()), ctx, Transition(Approve, sbomID))
    {
      if sbomID == "" { return Err(MissingField); }
      if sbomID !in sboms { return Err(NotFound); }
      var record := sboms[sbomID];
      if record.status != Compliant { return Err(WrongStatus(record.status)); }
      match record.trust.status {
        case Refused | Untrusted => return Err(TrustBlocked(record.trust.status));
        case ReviewRequired => return Err(TrustBlocked(record.trust.status));
        case Unevaluated => return Err(TrustBlocked(record.trust.status));
        case ConditionallyAccepted => return Err(TrustBlocked(record.trust.status));
        case _ =>
      }
      if ctx.identity.None? { return Err(NoIdentity); }
      record := record.(status := Approved, submitterID := ctx.identity.value, timestamp := ctx.now);
      PutState(sbomID, record);
      return Ok(());
    }

    method ActivateSBOM(ctx: Context, sbomID: string) returns (reply: Reply)
      modifies this
      ensures reply == ReplyTo(old(State()), ctx, Transition(Activate, sbomID))
      ensures State() == Apply(old(State()), ctx, Transition(Activate, sbomID))
    {
      if sbomID == "" { return Err(MissingField); }
      if sbomID !in sboms { return Err(NotFound); }
      var record := sboms[sbomID];
      if record.status != Approved { return Err(WrongStatus(record.status)); }
      match record.trust.status {
        case Refused | Untrusted => return Err(TrustBlocked(record.trust.status));
        case ReviewRequired => return Err(TrustBlocked(record.trust.status));
        case Unevaluated => return Err(TrustBlocked(record.trust.status));
        case ConditionallyAccepted => return Err(TrustBlocked(record.trust.status));
        case _ =>
      }
      if ctx.identity.None? { return Err(NoIdentity); }
      record := record.(status := Active, submitterID := ctx.identity.value, timestamp := ctx.now);
      PutState(sbomID, record);
      return Ok(());
    }

    method SupersedeSBOM(ctx: Context, sbomID: string) returns (reply: Reply)
      modifies this
      ensures reply == ReplyTo(old(State()), ctx, Transition(Supersede, sbomID))
      ensures State() == Apply(old(State()), ctx, Transition(Supersede, sbomID))
    {
      if sbomID == "" { return Err(MissingField); }
      if sbomID !in sboms { return Err(NotFound); }
      var record := sboms[sbomID];
      if record.status != Approved && record.status != Active { return Err(WrongStatus(record.status)); }
      if ctx.identity.None? { return Err(NoIdentity); }
      record := record.(status := Superseded, submitterID := ctx.identity.value, timestamp := ctx.now);
      PutState(sbomID, record);
      return Ok(());
    }

    method RejectSBOM(ctx: Context, sbomID: string) returns (reply: Reply)
      modifies this
      ensures reply == ReplyTo(old(State()), ctx, Transition(Reject, sbomID))
      ensures State() == Apply(old(State()), ctx, Transition(Reject, sbomID))
    {
      if sbomID == "" { return Err(MissingField); }
      if sbomID !in sboms { return Err(NotFound); }
      var record := sboms[sbomID];
      if record.status == Superseded || record.status == Rejected { return Err(WrongStatus(record.status)); }
      if ctx.identity.None? { return Err(NoIdentity); }
      record := record.(status := Rejected, submitterID := ctx.identity.value, timestamp := ctx.now);
      PutState(sbomID, record);
      return Ok(());
    }

    method RecordTrustDecision(ctx: Context, input: DecisionInput) returns (reply: Reply)
      modifies this
      ensures reply == ReplyTo(old(State()), ctx, Decide(input))
      ensures State() == Apply(old(State()), ctx, Decide(input))
    {
      if input.version != "3.0" { return Err(UnsupportedVersion); }
      if input.sbomID == "" || input.decisionId == "" || input.trustStatus.Unset? { return Err(MissingField); }
      var digestsOk := ValidateDigests(input);
      if !digestsOk { return Err(InvalidDigest); }
      if ctx.msp != SecurityMSP && ctx.msp != AuditorMSP { return Err(UnauthorizedMsp); }
      match input.trustStatus {
        case Trusted | ConditionallyAccepted | ReviewRequired | Refused =>
        case _ => return Err(NotADecision(input.trustStatus));
      }
      var submitter := if ctx.identity.Some? then ctx.identity.value else "unknown";
      var key := Key(input.sbomID, input.decisionId);
      if key in decisions {
        if SamePayload(decisions[key], input) { return Ok(()); }
        return Err(ConflictingPayload);
      }
      if input.sbomID !in sboms { return Err(NotFound); }
      var sbom := EnsureSlices(sboms[input.sbomID]);
      var trust := sbom.trust.(status := input.trustStatus, reasonCode := input.reasonCode,
                               reasonDesc := input.reasonDescription, evaluatedAt := ctx.now, evaluatedBy := submitter,
                               provenanceHash := input.provenanceHash);
      if input.signatureHashes != None { trust := trust.(signatureHashes := input.signatureHashes); }
      if input.activeVexIds != None { trust := trust.(activeVexIds := input.activeVexIds); }
      trust := trust.(effectiveRiskScore := input.effectiveRiskScore);
      assert trust == DecidedTrust(sboms[input.sbomID].trust, ctx, input);
      var pointer := PointerOf(input, trust);
      PutState(input.sbomID, sbom.(trust := trust));
      decisions := decisions[key := pointer];
      events := events + [pointer];
      return Ok(());
    }

    method RecordTrustEvidence(ctx: Context, input: EvidenceInput) returns (reply: Reply)
      modifies this
      ensures reply == ReplyTo(old(State()), ctx, Attest(input))
      ensures State() == Apply(old(State()), ctx, Attest(input))
    {
      if input.version != "3.0" { return Err(UnsupportedVersion); }
      if input.sbomID == "" || input.evidenceId == "" || input.evidenceHash == "" { return Err(MissingField); }
      var ok := ValidateDigest(input.evidenceHash);
      if !ok { return Err(InvalidDigest); }
      if ctx.msp != VendorMSP && ctx.msp != SecurityMSP && ctx.msp != AuditorMSP { return Err(UnauthorizedMsp); }
      var submitter := if ctx.identity.Some? then ctx.identity.value else "unknown";
      var key := Key(input.sbomID, input.evidenceId);
      var record := Evidence(input.evidenceId, input.sbomID, input.evidenceType, input.evidenceHash, input.evidencePayload,
                             ctx.now, submitter);
      if key in evidence {
        var existing := evidence[key];
        if existing.evidenceType == record.evidenceType && existing.evidenceHash == record.evidenceHash
           && existing.evidencePayload == record.evidencePayload { return Ok(()); }
        return Err(ConflictingPayload);
      }
      if input.sbomID !in sboms { return Err(NotFound); }
      evidence := evidence[key := record];
      return Ok(());
    }
  }

  method ValidateDigest(digest: string) returns (ok: bool)
    ensures ok <==> IsDigest(digest)
  {
    if |digest| < 7 || digest[..7] != "sha256:" { return false; }
    var hexPart := digest[7..];
    if |hexPart| != 64 { return false; }
    var i := 0;
    while i < |hexPart|
      invariant 0 <= i <= |hexPart|
      invariant forall j :: 7 <= j < 7 + i ==> IsHex(digest[j])
    {
      if !IsHex(hexPart[i]) {
        assert !IsHex(digest[7 + i]);
        return false;
      }
      i := i + 1;
    }
    return true;
  }

  method ValidateDigests(input: DecisionInput) returns (ok: bool)
    ensures ok <==> DigestsValid(input)
  {
    if input.provenanceHash != "" {
      ok := ValidateDigest(input.provenanceHash);
      if !ok { return; }
    }
    if input.signatureHashes == None { return true; }
    var hashes := input.signatureHashes.value;
    var i := 0;
    while i < |hashes|
      invariant 0 <= i <= |hashes|
      invariant forall j :: 0 <= j < i ==> IsDigest(hashes[j])
    {
      ok := ValidateDigest(hashes[i]);
      if !ok { return; }
      i := i + 1;
    }
    return true;
  }
}

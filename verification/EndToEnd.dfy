/** From an evaluation through the outbox to the ledger's lifecycle gate. */
module EndToEnd {
  import opened Prelude
  import L = LedgerModel
  import R = LedgerRuns
  import O = OutboxModel
  import S = OutboxRuns
  import T = TrustEngine

  function LedgerStatus(st: T.TrustStatus): L.Trust {
    match st
    case TRUSTED => L.Trusted
    case CONDITIONALLY_ACCEPTED => L.ConditionallyAccepted
    case REVIEW_REQUIRED => L.ReviewRequired
    case REJECTED => L.Refused
  }

  lemma LedgerStatusIff(st: T.TrustStatus)
    ensures LedgerStatus(st) == L.Trusted <==> st == T.TRUSTED
    ensures LedgerStatus(st) == L.ConditionallyAccepted <==> st == T.CONDITIONALLY_ACCEPTED
    ensures LedgerStatus(st) == L.ReviewRequired <==> st == T.REVIEW_REQUIRED
    ensures LedgerStatus(st) == L.Refused <==> st == T.REJECTED
  {
  }

  /** The stored decision and the texts that go with it into the payload. */
  datatype Stored = Stored(decisionId: string, reasonCode: string, reasonDescription: string, policyVersion: string, bundleHash: string)

  function PayloadOf(sbomId: string, d: T.Decision, stored: Stored): O.Payload {
    S.EvaluationPayload(sbomId, stored.decisionId, LedgerStatus(d.status), stored.reasonCode, stored.reasonDescription,
                        stored.policyVersion, stored.bundleHash)
  }

  /** The automatic evaluation: decide, then queue the decision for the ledger. Without a document nothing is decided or queued. */
  method EvaluateSubmittedSbom(store: O.OutboxStore, sbomId: string, b: T.Bundle, policy: T.Policy, now: int, stored: Stored)
    returns (d: Option<T.Decision>)
    modifies store
    ensures d == if b.document.None? then None else Some(T.DecisionOf(b, policy, now))
    ensures store.rows == old(store.rows) + if d.None? then []
              else [O.Row(O.RecordTrustDecision, PayloadOf(sbomId, d.value, stored), O.Pending, 0, now)]
  {
    if b.document.None? {
      assert store.rows + [] == store.rows;
      return None;
    }
    var decision := T.EvaluateTrust(b, policy, now);
    var _ := store.InsertOutboxRecord(O.RecordTrustDecision, PayloadOf(sbomId, decision, stored), now);
    return Some(decision);
  }

  /** Such a payload passes the worker's check and carries no lists, so it can be anchored and delivered again. */
  lemma QueuedDecisionIsDeliverable(sbomId: string, d: T.Decision, stored: Stored)
    ensures S.StepWithoutLists(S.Enqueue(O.RecordTrustDecision, PayloadOf(sbomId, d, stored)))
    ensures O.PayloadValid(O.RecordTrustDecision, PayloadOf(sbomId, d, stored)) <==>
            sbomId != "" && stored.decisionId != "" && stored.reasonCode != "" && stored.reasonDescription != "" && stored.bundleHash != ""
    ensures L.IsDecision(PayloadOf(sbomId, d, stored).trustStatus)
  {
    S.EvaluationIsValidIff(sbomId, stored.decisionId, LedgerStatus(d.status), stored.reasonCode, stored.reasonDescription,
                           stored.policyVersion, stored.bundleHash);
  }

  lemma QueuedFields(sbomId: string, d: T.Decision, stored: Stored)
    ensures var q := O.AsDecision(PayloadOf(sbomId, d, stored));
            && q.sbomID == sbomId && q.decisionId == stored.decisionId && q.trustStatus == LedgerStatus(d.status)
            && q.reasonCode == stored.reasonCode && q.reasonDescription == stored.reasonDescription
            && q.policyVersion == (if stored.policyVersion == "" then "3.0" else stored.policyVersion) && q.evidenceBundleHash == stored.bundleHash
  {
  }

  /** The latest decision of the SBOM is the queued one: its row has completed and nothing newer has been recorded. */
  ghost predicate IsLatest(s: S.Sys, i: nat, sbomId: string, d: T.Decision, stored: Stored) {
    && i < |s.rows| && s.rows[i].action.RecordTrustDecision? && s.rows[i].payload == PayloadOf(sbomId, d, stored)
    && s.rows[i].status.Completed?
    && R.Latest(S.World(s).events, sbomId).Some? && R.Latest(S.World(s).events, sbomId).value.decisionId == stored.decisionId
  }

  /** The ledger then holds the verdict of the evaluation, with its reason and evidence hash. */
  lemma LatestCarriesVerdict(maxRetries: int, steps: seq<S.Step>, i: nat, sbomId: string, d: T.Decision, stored: Stored)
    requires IsLatest(S.Run(S.Start, maxRetries, steps), i, sbomId, d, stored)
    ensures var s := S.Run(S.Start, maxRetries, steps);
            var p := R.Latest(S.World(s).events, sbomId).value;
            && p.trustStatus == LedgerStatus(d.status)
            && p.policyVersion == (if stored.policyVersion == "" then "3.0" else stored.policyVersion) && p.reasonCode == stored.reasonCode
            && p.reasonDescription == stored.reasonDescription && p.evidenceBundleHash == stored.bundleHash
            && sbomId in S.World(s).sboms && S.World(s).sboms[sbomId].trust.status == p.trustStatus
  {
    var s := S.Run(S.Start, maxRetries, steps);
    var p := R.Latest(S.World(s).events, sbomId).value;
    S.ExactlyOnce(maxRetries, steps, i);
    R.ReachedIsSound(s.calls);
    var k :| 0 <= k < |S.World(s).events| && S.World(s).events[k] == p;
    assert R.KeyOf(p) == L.DecisionKey(O.AsDecision(s.rows[i].payload));
    QueuedFields(sbomId, d, stored);
    assert R.SoundAt(S.World(s), sbomId);
  }

  /**
   Whatever the workers, the retries and the other clients of the ledger did in between: approval and activation that
   succeed while this evaluation is the latest recorded one mean that it found a valid provenance, a verified signature,
   no blocking or doubtful finding and no exception left open.
   */
  lemma GateFollowsTheEvaluation(maxRetries: int, steps: seq<S.Step>, i: nat, sbomId: string, b: T.Bundle, policy: T.Policy,
                                 now: int, stored: Stored, ctx: L.Context, m: L.Move)
    requires IsLatest(S.Run(S.Start, maxRetries, steps), i, sbomId, T.DecisionOf(b, policy, now), stored)
    requires L.Gated(m) && ctx.identity.Some?
    requires L.ReplyTo(S.World(S.Run(S.Start, maxRetries, steps)), ctx, L.Transition(m, sbomId)).Ok?
    ensures T.DecisionOf(b, policy, now) == T.Decision(T.TRUSTED, T.AllPassed)
    ensures T.MandatoryPassed(b) && forall k :: 0 <= k < |b.exceptions| ==> b.exceptions[k].status != T.ActiveException
    ensures var input := T.InputOf(b, b.document.value, policy, now);
            T.ClearContext(input) && !T.C.SomeThreat(input) && !T.C.SomeDoubt(input)
  {
    LatestCarriesVerdict(maxRetries, steps, i, sbomId, T.DecisionOf(b, policy, now), stored);
    R.GateOpensIff(S.Run(S.Start, maxRetries, steps).calls, ctx, m, sbomId);
    T.TrustedIff(b, policy, now);
  }
}

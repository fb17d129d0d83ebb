/**
 Outbox and ledger as one step system: any number of workers claim, submit and mark in any interleaving; processes
 crash, status writes fail, administrators requeue, and other clients use the ledger at the same time.
 */
module OutboxRuns {
  import opened Prelude
  import opened OutboxModel
  import L = LedgerModel
  import R = LedgerRuns

  /** A worker's hold on a row it claimed as the `attempt`-th: not yet submitted, answered, or let go. */
  datatype Phase = InFlight | Answered(answer: Answer) | Over
  datatype Token = Token(row: nat, attempt: nat, phase: Phase)

  /** `permits` are requeue requests that passed the route's check; `requeues` counts the requeues of each row. */
  datatype Sys = Sys(rows: seq<Row>, calls: seq<R.Call>, tokens: seq<Token>, permits: seq<nat>, requeues: seq<nat>, now: int)

  const Start := Sys([], [], [], [], [], 0)

  function World(s: Sys): L.World {
    R.Reached(s.calls)
  }

  datatype Step =
    | Enqueue(action: Action, payload: Payload)
    | Claim(i: nat)
    | Submit(k: nat, weather: Weather)
    | Mark(k: nat, writeOk: bool)
    | Crash(k: nat)
    | AdminRequeue(i: nat)
    | RouteCheck(i: nat)
    | RouteRequeue(p: nat)
    | Foreign(call: R.Call)
    | Advance(delay: nat)

  function Requeued(s: Sys, i: nat, status: RowStatus): Sys
    requires i < |s.rows| == |s.requeues|
  {
    s.(rows := s.rows[i := Updated(s.rows[i], status, Some(s.now))], requeues := s.requeues[i := s.requeues[i] + 1])
  }

  function WithPhase(s: Sys, k: nat, phase: Phase): Sys
    requires k < |s.tokens|
  {
    s.(tokens := s.tokens[k := s.tokens[k].(phase := phase)])
  }

  predicate WellFormed(s: Sys) {
    && |s.requeues| == |s.rows|
    && (forall k :: 0 <= k < |s.tokens| ==> s.tokens[k].row < |s.rows|)
    && (forall p :: 0 <= p < |s.permits| ==> s.permits[p] < |s.rows|)
  }

  /** The transactions an attempt puts on the ledger: none or one. */
  function CallsOfAttempt(r: Row, weather: Weather): seq<R.Call> {
    if !PayloadValid(r.action, r.payload) || weather.identityMissing || weather.delivery.LostBeforeCommit? then []
    else [R.Call(weather.ctx, TxOf(r.action, r.payload))]
  }

  function Submitted(s: Sys, k: nat, weather: Weather): Sys
    requires k < |s.tokens| && s.tokens[k].row < |s.rows|
  {
    var r := s.rows[s.tokens[k].row];
    WithPhase(s, k, Answered(AnswerOfAttempt(World(s), r.action, r.payload, weather)))
      .(calls := s.calls + CallsOfAttempt(r, weather))
  }

  /** A failed COMPLETED write turns into a failed attempt; any other failed write ends the worker's batch. */
  function Marked(s: Sys, k: nat, writeOk: bool, maxRetries: int): Sys
    requires k < |s.tokens| && s.tokens[k].row < |s.rows| && s.tokens[k].phase.Answered?
  {
    var t := s.tokens[k];
    var r := s.rows[t.row];
    if t.phase.answer.Accepted? && !writeOk then WithPhase(s, k, Answered(Failed))
    else if !writeOk then WithPhase(s, k, Over)
    else
      var r' := if t.phase.answer.Accepted? then Updated(r, Completed, None)
                else AfterFailure(r, t.attempt, t.phase.answer, maxRetries, s.now);
      WithPhase(s, k, Over).(rows := s.rows[t.row := r'])
  }

  /** Steps whose guard does not hold leave the state as it is. */
  function Next(s: Sys, maxRetries: int, st: Step): Sys
    requires WellFormed(s)
  {
    match st
    case Enqueue(action, payload) =>
      if action.OtherAction? then s
      else s.(rows := s.rows + [Row(action, payload, Pending, 0, s.now)], requeues := s.requeues + [0])
    case Claim(i) =>
      if i < |s.rows| && Eligible(s.rows[i], s.now) then
        s.(rows := s.rows[i := Claimed(s.rows[i])], tokens := s.tokens + [Token(i, s.rows[i].retryCount + 1, InFlight)])
      else s
    case Submit(k, weather) => if k < |s.tokens| && s.tokens[k].phase.InFlight? then Submitted(s, k, weather) else s
    case Mark(k, writeOk) => if k < |s.tokens| && s.tokens[k].phase.Answered? then Marked(s, k, writeOk, maxRetries) else s
    case Crash(k) => if k < |s.tokens| then WithPhase(s, k, Over) else s
    case AdminRequeue(i) => if i < |s.rows| then Requeued(s, i, RetryPending) else s
    case RouteCheck(i) => if i < |s.rows| && MayRequeue(s.rows[i]) then s.(permits := s.permits + [i]) else s
    case RouteRequeue(p) => if p < |s.permits| then Requeued(s, s.permits[p], Pending) else s
    case Foreign(call) => s.(calls := s.calls + [call])
    case Advance(delay) => s.(now := s.now + delay)
  }

  lemma NextIsWellFormed(s: Sys, maxRetries: int, st: Step)
    requires WellFormed(s)
    ensures WellFormed(Next(s, maxRetries, st))
  {
  }

  function Run(s: Sys, maxRetries: int, steps: seq<Step>): (s': Sys)
    requires WellFormed(s)
    ensures WellFormed(s')
  {
    if steps == [] then s
    else
      var before, st := Run(s, maxRetries, steps[..|steps| - 1]), steps[|steps| - 1];
      NextIsWellFormed(before, maxRetries, st);
      Next(before, maxRetries, st)
  }

  lemma RowsGrow(s: Sys, maxRetries: int, st: Step, i: nat)
    requires WellFormed(s) && i < |s.rows|
    ensures var s' := Next(s, maxRetries, st);
            && |s'.rows| >= |s.rows|
            && s'.rows[i].action == s.rows[i].action && s'.rows[i].payload == s.rows[i].payload
            && s'.requeues[i] >= s.requeues[i] && s'.rows[i].retryCount >= s.rows[i].retryCount
  {
  }

  // ---------------------------------------------------------------- exactly once

  /** A stored pointer that carries the decision; an absent or empty list says nothing about the pointer's. */
  predicate Carries(p: L.Pointer, d: L.DecisionInput) {
    && p.decisionId == d.decisionId && p.sbomID == d.sbomID
    && L.SamePayload(p, d.(signatureHashes := p.signatureHashes, activeVexIds := p.activeVexIds))
    && (d.signatureHashes.Some? && d.signatureHashes.value != [] ==> p.signatureHashes == d.signatureHashes)
    && (d.activeVexIds.Some? && d.activeVexIds.value != [] ==> p.activeVexIds == d.activeVexIds)
  }

  predicate Anchored(w: L.World, action: Action, p: Payload) {
    match action
    case RecordTrustDecision =>
      var key := L.DecisionKey(AsDecision(p));
      key in w.decisions && Carries(w.decisions[key], AsDecision(p))
    case RecordTrustEvidence =>
      var key := L.EvidenceKey(AsEvidence(p));
      key in w.evidence && L.SameEvidence(w.evidence[key], AsEvidence(p))
    case OtherAction(_) => false
  }

  lemma AnchoredForever(w: L.World, c: R.Call, action: Action, p: Payload)
    requires Anchored(w, action, p)
    ensures Anchored(L.Apply(w, c.ctx, c.tx), action, p)
  {
  }

  /** A successful reply means the ledger holds the payload, whether this transaction or an earlier one wrote it. */
  lemma AcceptedIsAnchored(calls: seq<R.Call>, ctx: L.Context, action: Action, p: Payload)
    requires PayloadValid(action, p) && L.ReplyTo(R.Reached(calls), ctx, TxOf(action, p)).Ok?
    ensures Anchored(L.Apply(R.Reached(calls), ctx, TxOf(action, p)), action, p)
  {
    var w := R.Reached(calls);
    R.ReachedIsSound(calls);
    if action.RecordTrustDecision? {
      var d := AsDecision(p);
      assert R.SoundAt(w, d.sbomID);
      if L.DecisionKey(d) in w.decisions {
        assert R.KeyOf(w.decisions[L.DecisionKey(d)]) == L.DecisionKey(d);
      } else {
        R.WrittenPointer(w, ctx, d);
      }
    }
  }

  lemma ReachedSnoc(calls: seq<R.Call>, c: R.Call)
    ensures R.Reached(calls + [c]) == L.Apply(R.Reached(calls), c.ctx, c.tx)
  {
    assert (calls + [c])[..|calls|] == calls;
  }

  lemma WorldAfterSubmission(s: Sys, k: nat, weather: Weather)
    requires k < |s.tokens| && s.tokens[k].row < |s.rows|
    ensures var r := s.rows[s.tokens[k].row];
            World(Submitted(s, k, weather)) == WorldAfterAttempt(World(s), r.action, r.payload, weather)
  {
    var r := s.rows[s.tokens[k].row];
    if CallsOfAttempt(r, weather) == [] {
      assert s.calls + [] == s.calls;
    } else {
      ReachedSnoc(s.calls, R.Call(weather.ctx, TxOf(r.action, r.payload)));
    }
  }

  /** Completed rows are on the ledger, and so are the rows whose worker saw success. */
  ghost predicate AnchoredRows(s: Sys) {
    && WellFormed(s)
    && (forall i :: 0 <= i < |s.rows| && s.rows[i].status.Completed? ==> Anchored(World(s), s.rows[i].action, s.rows[i].payload))
    && (forall k :: 0 <= k < |s.tokens| && s.tokens[k].phase == Answered(Accepted) ==>
          Anchored(World(s), s.rows[s.tokens[k].row].action, s.rows[s.tokens[k].row].payload))
  }

  /** Whatever is added to the ledger, what was anchored stays anchored. */
  lemma LedgerOnlyGrows(s: Sys, s': Sys)
    requires AnchoredRows(s) && s'.rows == s.rows && s'.tokens == s.tokens && WellFormed(s')
    requires forall action, p :: Anchored(World(s), action, p) ==> Anchored(World(s'), action, p)
    ensures AnchoredRows(s')
  {
  }

  lemma SubmitKeepsAnchored(s: Sys, k: nat, weather: Weather)
    requires AnchoredRows(s) && k < |s.tokens| && s.tokens[k].phase.InFlight?
    ensures AnchoredRows(Submitted(s, k, weather))
  {
    var r := s.rows[s.tokens[k].row];
    var s' := Submitted(s, k, weather);
    WorldAfterSubmission(s, k, weather);
    var calls' := s.(calls := s'.calls);
    if CallsOfAttempt(r, weather) != [] {
      var c := R.Call(weather.ctx, TxOf(r.action, r.payload));
      forall action, p | Anchored(World(s), action, p) ensures Anchored(World(s'), action, p) {
        AnchoredForever(World(s), c, action, p);
      }
    }
    assert World(calls') == World(s');
    LedgerOnlyGrows(s, calls');
    if s'.tokens[k].phase == Answered(Accepted) {
      AcceptedIsAnchored(s.calls, weather.ctx, r.action, r.payload);
    }
  }

  lemma MarkKeepsAnchored(s: Sys, maxRetries: int, k: nat, writeOk: bool)
    requires AnchoredRows(s) && k < |s.tokens| && s.tokens[k].phase.Answered?
    ensures AnchoredRows(Marked(s, k, writeOk, maxRetries))
  {
    assert World(Marked(s, k, writeOk, maxRetries)) == World(s);
  }

  lemma NextKeepsAnchored(s: Sys, maxRetries: int, st: Step)
    requires AnchoredRows(s)
    ensures AnchoredRows(Next(s, maxRetries, st))
  {
    var s' := Next(s, maxRetries, st);
    match st
    case Submit(k, weather) =>
      if k < |s.tokens| && s.tokens[k].phase.InFlight? {
        SubmitKeepsAnchored(s, k, weather);
      }
    case Foreign(call) =>
      ReachedSnoc(s.calls, call);
      forall action, p | Anchored(World(s), action, p) ensures Anchored(World(s'), action, p) {
        AnchoredForever(World(s), call, action, p);
      }
      LedgerOnlyGrows(s, s');
    case Mark(k, writeOk) =>
      if k < |s.tokens| && s.tokens[k].phase.Answered? {
        MarkKeepsAnchored(s, maxRetries, k, writeOk);
      }
    case _ => assert World(s') == World(s);
  }

  lemma {:induction false} RunKeepsAnchored(s: Sys, maxRetries: int, steps: seq<Step>)
    requires AnchoredRows(s)
    ensures AnchoredRows(Run(s, maxRetries, steps))
  {
    if steps != [] {
      RunKeepsAnchored(s, maxRetries, steps[..|steps| - 1]);
      NextKeepsAnchored(Run(s, maxRetries, steps[..|steps| - 1]), maxRetries, steps[|steps| - 1]);
    }
  }

  /**
   Exactly once. However often a decision is submitted, and whatever else reaches the ledger, at most one transaction
   writes its pointer and its SBOM's trust fields; and when its row is COMPLETED exactly one did, with the row's payload.
   */
  lemma ExactlyOnce(maxRetries: int, steps: seq<Step>, i: nat)
    requires i < |Run(Start, maxRetries, steps).rows| && Run(Start, maxRetries, steps).rows[i].action.RecordTrustDecision?
    ensures var s := Run(Start, maxRetries, steps);
            var d := AsDecision(s.rows[i].payload);
            var key := L.DecisionKey(d);
            && R.WritesOf(L.EmptyWorld, s.calls, key) <= 1
            && (s.rows[i].status.Completed? ==>
                  && R.WritesOf(L.EmptyWorld, s.calls, key) == 1
                  && key in World(s).decisions && Carries(World(s).decisions[key], d))
  {
    var s := Run(Start, maxRetries, steps);
    RunKeepsAnchored(Start, maxRetries, steps);
    R.WrittenOnce(s.calls, L.DecisionKey(AsDecision(s.rows[i].payload)));
  }

  /** Field by field: what the ledger holds for an anchored decision is what the payload says. */
  lemma AnchoredDecisionFields(w: L.World, p: Payload)
    requires Anchored(w, RecordTrustDecision, p)
    ensures L.Key(p.sbomID, p.decisionId) in w.decisions
    ensures var q := w.decisions[L.Key(p.sbomID, p.decisionId)];
            && q.sbomID == p.sbomID && q.decisionId == p.decisionId && q.trustStatus == p.trustStatus
            && q.reasonCode == p.reasonCode && q.reasonDescription == p.reasonDescription && q.policyVersion == p.policyVersion
            && q.idempotencyKey == p.idempotencyKey && q.provenanceHash == p.provenanceHash
            && q.effectiveRiskScore == p.effectiveRiskScore && q.evidenceBundleHash == p.evidenceBundleHash
  {
  }

  lemma AnchoredEvidenceFields(w: L.World, p: Payload)
    requires Anchored(w, RecordTrustEvidence, p)
    ensures L.Key(p.sbomID, p.evidenceId) in w.evidence
    ensures var q := w.evidence[L.Key(p.sbomID, p.evidenceId)];
            q.evidenceType == p.evidenceType && q.evidenceHash == p.evidenceHash && q.evidencePayload == p.evidencePayload
  {
  }

  /** Delivery works: a submission that gets through and succeeds, marked in time, completes the row and is on the ledger. */
  lemma DeliveryCompletes(s: Sys, maxRetries: int, k: nat, weather: Weather)
    requires AnchoredRows(s) && k < |s.tokens| && s.tokens[k].phase == InFlight
    requires var r := s.rows[s.tokens[k].row];
             && PayloadValid(r.action, r.payload) && !weather.identityMissing && weather.delivery == Delivered
             && L.ReplyTo(World(s), weather.ctx, TxOf(r.action, r.payload)) == Ok(())
    ensures var s1 := Next(s, maxRetries, Submit(k, weather));
            WellFormed(s1) &&
            var s2 := Next(s1, maxRetries, Mark(k, true));
            var i := s.tokens[k].row;
            s2.rows[i].status == Completed && Anchored(World(s2), s2.rows[i].action, s2.rows[i].payload)
  {
    NextKeepsAnchored(s, maxRetries, Submit(k, weather));
    var s1 := Next(s, maxRetries, Submit(k, weather));
    assert s1.tokens[k].phase == Answered(Accepted);
    NextKeepsAnchored(s1, maxRetries, Mark(k, true));
  }

  predicate NoLists(tx: L.Tx) {
    tx.Decide? ==> tx.decision.signatureHashes.None? && tx.decision.activeVexIds.None?
  }

  /** The evaluator never puts lists into a payload; the assumption about other clients is that they do not either. */
  predicate StepWithoutLists(st: Step) {
    && (st.Enqueue? ==> st.payload.signatureHashes.None? && st.payload.activeVexIds.None?)
    && (st.Foreign? ==> NoLists(st.call.tx))
  }

  ghost predicate WithoutLists(s: Sys) {
    && WellFormed(s) && R.ListFree(s.calls)
    && (forall i :: 0 <= i < |s.rows| ==> s.rows[i].payload.signatureHashes.None? && s.rows[i].payload.activeVexIds.None?)
  }

  lemma {:induction false} RunWithoutLists(maxRetries: int, steps: seq<Step>)
    requires forall j :: 0 <= j < |steps| ==> StepWithoutLists(steps[j])
    ensures WithoutLists(Run(Start, maxRetries, steps))
  {
    if steps != [] {
      RunWithoutLists(maxRetries, steps[..|steps| - 1]);
      StepKeepsListsOut(Run(Start, maxRetries, steps[..|steps| - 1]), maxRetries, steps[|steps| - 1]);
    }
  }

  lemma StepKeepsListsOut(s: Sys, maxRetries: int, st: Step)
    requires WithoutLists(s) && StepWithoutLists(st)
    ensures WithoutLists(Next(s, maxRetries, st))
  {
    NextIsWellFormed(s, maxRetries, st);
  }

  /** Then delivering an anchored decision again is a success without effect: at-least-once delivery is harmless. */
  lemma RedeliverySucceeds(maxRetries: int, steps: seq<Step>, i: nat, ctx: L.Context)
    requires forall j :: 0 <= j < |steps| ==> StepWithoutLists(steps[j])
    requires var s := Run(Start, maxRetries, steps);
             i < |s.rows| && s.rows[i].action.RecordTrustDecision? && Anchored(World(s), s.rows[i].action, s.rows[i].payload)
    ensures var s := Run(Start, maxRetries, steps);
            var d := AsDecision(s.rows[i].payload);
            && (L.DecisionCheck(ctx, d).Ok? ==> L.ReplyTo(World(s), ctx, L.Decide(d)).Ok?)
            && L.Apply(World(s), ctx, L.Decide(d)) == World(s)
            && R.ListsEmpty(World(s))
  {
    var s := Run(Start, maxRetries, steps);
    RunWithoutLists(maxRetries, steps);
    R.ListFreeKeepsListsEmpty(L.EmptyWorld, s.calls);
  }

  // ---------------------------------------------------------------- the retry bound

  predicate Revives(t: Token, i: nat, maxRetries: int) {
    t.row == i && !t.phase.Over? && t.attempt + 2 <= maxRetries
  }

  /** Open claims of row i whose failure would make the row claimable again. */
  function Reviving(tokens: seq<Token>, i: nat, maxRetries: int): nat {
    if tokens == [] then 0
    else Reviving(tokens[..|tokens| - 1], i, maxRetries) + if Revives(tokens[|tokens| - 1], i, maxRetries) then 1 else 0
  }

  lemma RevivingSnoc(tokens: seq<Token>, t: Token, i: nat, maxRetries: int)
    ensures Reviving(tokens + [t], i, maxRetries) == Reviving(tokens, i, maxRetries) + if Revives(t, i, maxRetries) then 1 else 0
  {
    assert (tokens + [t])[..|tokens|] == tokens;
  }

  lemma {:induction false} RevivingUpdate(tokens: seq<Token>, k: nat, t: Token, i: nat, maxRetries: int)
    requires k < |tokens|
    ensures Reviving(tokens[k := t], i, maxRetries) ==
            Reviving(tokens, i, maxRetries) - (if Revives(tokens[k], i, maxRetries) then 1 else 0)
            + if Revives(t, i, maxRetries) then 1 else 0
  {
    var n := |tokens| - 1;
    if k == n {
      assert tokens[k := t][..n] == tokens[..n];
    } else {
      assert tokens[k := t][..n] == tokens[..n][k := t];
      RevivingUpdate(tokens[..n], k, t, i, maxRetries);
    }
  }

  predicate Claimable(r: Row) {
    r.status.Pending? || r.status.RetryPending?
  }

  /** Claims made and claims still possible. */
  function Potential(s: Sys, i: nat, maxRetries: int): int
    requires i < |s.rows|
  {
    s.rows[i].retryCount + (if Claimable(s.rows[i]) then 1 else 0) + Reviving(s.tokens, i, maxRetries)
    + Max(0, maxRetries - 2 - s.rows[i].retryCount)
  }

  lemma {:induction false} RevivingNone(tokens: seq<Token>, i: nat, maxRetries: int)
    requires forall k :: 0 <= k < |tokens| ==> tokens[k].row != i
    ensures Reviving(tokens, i, maxRetries) == 0
  {
    if tokens != [] {
      RevivingNone(tokens[..|tokens| - 1], i, maxRetries);
    }
  }

  lemma PhasePotential(s: Sys, k: nat, phase: Phase, i: nat, maxRetries: int)
    requires k < |s.tokens| && i < |s.rows| && !s.tokens[k].phase.Over?
    ensures Potential(WithPhase(s, k, phase), i, maxRetries) ==
            Potential(s, i, maxRetries) - if phase.Over? && Revives(s.tokens[k], i, maxRetries) then 1 else 0
  {
    RevivingUpdate(s.tokens, k, s.tokens[k].(phase := phase), i, maxRetries);
  }

  lemma MarkPotential(s: Sys, k: nat, writeOk: bool, i: nat, maxRetries: int)
    requires k < |s.tokens| && s.tokens[k].row < |s.rows| && s.tokens[k].phase.Answered? && i < |s.rows|
    ensures Potential(Marked(s, k, writeOk, maxRetries), i, maxRetries) <= Potential(s, i, maxRetries)
  {
    PhasePotential(s, k, Over, i, maxRetries);
    PhasePotential(s, k, Answered(Failed), i, maxRetries);
  }

  lemma ClaimPotential(s: Sys, maxRetries: int, j: nat, i: nat)
    requires WellFormed(s) && i < |s.rows| && j < |s.rows| && Eligible(s.rows[j], s.now)
    ensures Potential(Next(s, maxRetries, Claim(j)), i, maxRetries) == Potential(s, i, maxRetries)
  {
    var t := Token(j, s.rows[j].retryCount + 1, InFlight);
    var s' := Next(s, maxRetries, Claim(j));
    RevivingSnoc(s.tokens, t, i, maxRetries);
    assert s'.rows[i] == if i == j then Claimed(s.rows[i]) else s.rows[i];
    assert Reviving(s'.tokens, i, maxRetries) == Reviving(s.tokens, i, maxRetries) + if Revives(t, i, maxRetries) then 1 else 0;
  }

  lemma SubmitPotential(s: Sys, k: nat, weather: Weather, i: nat, maxRetries: int)
    requires WellFormed(s) && i < |s.rows| && k < |s.tokens| && s.tokens[k].phase.InFlight?
    ensures Potential(Submitted(s, k, weather), i, maxRetries) == Potential(s, i, maxRetries)
  {
    var r := s.rows[s.tokens[k].row];
    PhasePotential(s, k, Answered(AnswerOfAttempt(World(s), r.action, r.payload, weather)), i, maxRetries);
  }

  /** No step but a requeue of the row raises its potential, and a requeue raises it by at most one. */
  lemma PotentialStep(s: Sys, maxRetries: int, st: Step, i: nat)
    requires WellFormed(s) && i < |s.rows|
    ensures var s' := Next(s, maxRetries, st);
            && i < |s'.rows|
            && Potential(s', i, maxRetries) - s'.requeues[i] <= Potential(s, i, maxRetries) - s.requeues[i]
  {
    match st
    case Claim(j) =>
      if j < |s.rows| && Eligible(s.rows[j], s.now) {
        ClaimPotential(s, maxRetries, j, i);
      }
    case Submit(k, weather) =>
      if k < |s.tokens| && s.tokens[k].phase.InFlight? {
        SubmitPotential(s, k, weather, i, maxRetries);
      }
    case Mark(k, writeOk) =>
      if k < |s.tokens| && s.tokens[k].phase.Answered? {
        MarkPotential(s, k, writeOk, i, maxRetries);
      }
    case Crash(k) =>
      if k < |s.tokens| {
        RevivingUpdate(s.tokens, k, s.tokens[k].(phase := Over), i, maxRetries);
      }
    case _ =>
  }

  ghost predicate Bounded(s: Sys, maxRetries: int) {
    WellFormed(s) && forall i :: 0 <= i < |s.rows| ==> Potential(s, i, maxRetries) <= 1 + s.requeues[i] + Max(0, maxRetries - 2)
  }

  lemma BoundedStep(s: Sys, maxRetries: int, st: Step)
    requires Bounded(s, maxRetries)
    ensures Bounded(Next(s, maxRetries, st), maxRetries)
  {
    var s' := Next(s, maxRetries, st);
    NextIsWellFormed(s, maxRetries, st);
    forall i | 0 <= i < |s'.rows| ensures Potential(s', i, maxRetries) <= 1 + s'.requeues[i] + Max(0, maxRetries - 2) {
      if i < |s.rows| {
        PotentialStep(s, maxRetries, st, i);
      } else {
        RevivingNone(s.tokens, i, maxRetries);
      }
    }
  }

  lemma {:induction false} RunIsBounded(maxRetries: int, steps: seq<Step>)
    ensures Bounded(Run(Start, maxRetries, steps), maxRetries)
  {
    if steps != [] {
      RunIsBounded(maxRetries, steps[..|steps| - 1]);
      BoundedStep(Run(Start, maxRetries, steps[..|steps| - 1]), maxRetries, steps[|steps| - 1]);
    }
  }

  predicate Claims(s: Sys, st: Step, i: nat) {
    st == Claim(i) && i < |s.rows| && Eligible(s.rows[i], s.now)
  }

  function ClaimsOf(maxRetries: int, steps: seq<Step>, i: nat): nat {
    if steps == [] then 0
    else
      var before := steps[..|steps| - 1];
      ClaimsOf(maxRetries, before, i) + if Claims(Run(Start, maxRetries, before), steps[|steps| - 1], i) then 1 else 0
  }

  lemma {:induction false} RetryCountCountsClaims(maxRetries: int, steps: seq<Step>, i: nat)
    ensures var s := Run(Start, maxRetries, steps);
            ClaimsOf(maxRetries, steps, i) == if i < |s.rows| then s.rows[i].retryCount else 0
  {
    if steps != [] {
      RetryCountCountsClaims(maxRetries, steps[..|steps| - 1], i);
      OneMoreClaim(Run(Start, maxRetries, steps[..|steps| - 1]), maxRetries, steps[|steps| - 1], i);
    }
  }

  lemma OneMoreClaim(s: Sys, maxRetries: int, st: Step, i: nat)
    requires WellFormed(s)
    ensures var s' := Next(s, maxRetries, st);
            && (i < |s.rows| ==> i < |s'.rows| && s'.rows[i].retryCount == s.rows[i].retryCount + if Claims(s, st, i) then 1 else 0)
            && (|s.rows| <= i < |s'.rows| ==> s'.rows[i].retryCount == 0)
  {
  }

  /**
   Under every interleaving of workers, crashes and failed writes a row is claimed at most max(1, maxRetries - 1) times
   more than it is requeued: the worker adds one to a counter that the claim has already raised.
   */
  lemma ClaimBound(maxRetries: int, steps: seq<Step>, i: nat)
    requires i < |Run(Start, maxRetries, steps).rows|
    ensures ClaimsOf(maxRetries, steps, i) <= Max(1, maxRetries - 1) + Run(Start, maxRetries, steps).requeues[i]
  {
    RunIsBounded(maxRetries, steps);
    RetryCountCountsClaims(maxRetries, steps, i);
  }

  // ---------------------------------------------------------------- one owner, waiting times, rest

  predicate Holds(t: Token, i: nat) {
    t.row == i && !t.phase.Over?
  }

  /** A row that was never requeued has at most one open claim, the latest one, and is PROCESSING while it is open. */
  ghost predicate SingleOwner(s: Sys, i: nat)
    requires i < |s.rows| == |s.requeues|
  {
    s.requeues[i] == 0 ==>
      && (forall k :: 0 <= k < |s.tokens| && Holds(s.tokens[k], i) ==>
            s.rows[i].status.Processing? && s.tokens[k].attempt == s.rows[i].retryCount)
      && (forall j, k :: 0 <= j < k < |s.tokens| && Holds(s.tokens[j], i) ==> !Holds(s.tokens[k], i))
  }

  lemma SingleOwnerStep(s: Sys, maxRetries: int, st: Step, i: nat)
    requires WellFormed(s) && i < |s.rows| && SingleOwner(s, i)
    ensures WellFormed(Next(s, maxRetries, st)) && i < |Next(s, maxRetries, st).rows| && SingleOwner(Next(s, maxRetries, st), i)
  {
    NextIsWellFormed(s, maxRetries, st);
    match st
    case Claim(j) =>
    case Submit(k, weather) =>
    case Mark(k, writeOk) =>
    case _ =>
  }

  ghost predicate Owned(s: Sys) {
    WellFormed(s) && forall i :: 0 <= i < |s.rows| ==> SingleOwner(s, i)
  }

  lemma {:induction false} RunIsOwned(maxRetries: int, steps: seq<Step>)
    ensures Owned(Run(Start, maxRetries, steps))
  {
    if steps != [] {
      RunIsOwned(maxRetries, steps[..|steps| - 1]);
      OwnedStep(Run(Start, maxRetries, steps[..|steps| - 1]), maxRetries, steps[|steps| - 1]);
    }
  }

  lemma OwnedStep(s: Sys, maxRetries: int, st: Step)
    requires Owned(s)
    ensures Owned(Next(s, maxRetries, st))
  {
    var s' := Next(s, maxRetries, st);
    NextIsWellFormed(s, maxRetries, st);
    forall i | 0 <= i < |s'.rows| ensures SingleOwner(s', i) {
      if i < |s.rows| {
        SingleOwnerStep(s, maxRetries, st, i);
      }
    }
  }

  /** No worker holds the row. */
  ghost predicate Unheld(s: Sys, i: nat) {
    forall k :: 0 <= k < |s.tokens| ==> !Holds(s.tokens[k], i)
  }

  lemma UnheldStep(s: Sys, maxRetries: int, st: Step, i: nat)
    requires WellFormed(s) && i < |s.rows| && Unheld(s, i)
    ensures var s' := Next(s, maxRetries, st);
            && i < |s'.rows|
            && (s'.requeues[i] == s.requeues[i] && !Claims(s, st, i) ==> Unheld(s', i) && s'.rows[i] == s.rows[i])
            && s'.requeues[i] >= s.requeues[i] && s'.now >= s.now
            && (Claims(s, st, i) ==> s.now >= s.rows[i].nextAttemptAt && s'.rows[i].retryCount == s.rows[i].retryCount + 1)
  {
  }

  /** An unheld row waits unchanged for its time; it is claimed again only when that has come, or after a requeue. */
  lemma {:induction false} UnheldWaits(s: Sys, maxRetries: int, steps: seq<Step>, i: nat)
    requires WellFormed(s) && i < |s.rows| && Unheld(s, i)
    ensures var s' := Run(s, maxRetries, steps);
            && i < |s'.rows| && s'.requeues[i] >= s.requeues[i] && s'.rows[i].retryCount >= s.rows[i].retryCount
            && (s'.requeues[i] == s.requeues[i] && s'.rows[i].retryCount == s.rows[i].retryCount ==>
                  Unheld(s', i) && s'.rows[i] == s.rows[i])
            && (s'.requeues[i] == s.requeues[i] && s'.rows[i].retryCount > s.rows[i].retryCount ==>
                  Claimable(s.rows[i]) && s'.now >= s.rows[i].nextAttemptAt)
  {
    if steps != [] {
      var before, st := steps[..|steps| - 1], steps[|steps| - 1];
      UnheldWaits(s, maxRetries, before, i);
      var s1 := Run(s, maxRetries, before);
      RowsGrow(s1, maxRetries, st, i);
      OneMoreClaim(s1, maxRetries, st, i);
      ClockStep(s1, maxRetries, st);
      if Unheld(s1, i) {
        UnheldStep(s1, maxRetries, st, i);
      }
    }
  }

  lemma ClockStep(s: Sys, maxRetries: int, st: Step)
    requires WellFormed(s)
    ensures Next(s, maxRetries, st).now >= s.now
  {
  }

  /** After the k-th claim of a never requeued row fails at time t, the next claim comes no earlier than t + 4000 * 2^k ms. */
  lemma NotBeforeBackoff(maxRetries: int, steps: seq<Step>, k: nat, later: seq<Step>)
    requires var s := Run(Start, maxRetries, steps);
             && k < |s.tokens| && s.tokens[k].phase.Answered? && !s.tokens[k].phase.answer.Accepted?
             && s.requeues[s.tokens[k].row] == 0
    ensures var s := Run(Start, maxRetries, steps);
            var i := s.tokens[k].row;
            var s1 := Next(s, maxRetries, Mark(k, true));
            var s2 := Run(s1, maxRetries, later);
            && i < |s2.rows|
            && (s2.requeues[i] == 0 && s2.rows[i].retryCount > s.rows[i].retryCount ==>
                  s2.now >= s.now + 4000 * Pow2(s.rows[i].retryCount))
  {
    RunIsOwned(maxRetries, steps);
    var s := Run(Start, maxRetries, steps);
    var i := s.tokens[k].row;
    assert SingleOwner(s, i) && Holds(s.tokens[k], i);
    var s1 := Next(s, maxRetries, Mark(k, true));
    assert Unheld(s1, i);
    UnheldWaits(s1, maxRetries, later, i);
  }

  /** A claim takes a row iff it is PENDING or RETRY_PENDING and its time has come. */
  lemma ClaimTakesIff(s: Sys, maxRetries: int, i: nat)
    requires WellFormed(s) && i < |s.rows|
    ensures var r, r' := s.rows[i], Next(s, maxRetries, Claim(i)).rows[i];
            r' == if (r.status == Pending || r.status == RetryPending) && r.nextAttemptAt <= s.now
                  then r.(status := Processing, retryCount := r.retryCount + 1)
                  else r
  {
  }

  /**
   Nothing is forgotten: when the k-th claim of a never requeued row fails at time t with attempts left, then, whatever
   happens meanwhile short of another claim, from t + 4000 * 2^k on a worker that asks for the row gets it.
   */
  lemma RetryComesDue(maxRetries: int, steps: seq<Step>, k: nat, later: seq<Step>)
    requires var s := Run(Start, maxRetries, steps);
             && k < |s.tokens| && s.tokens[k].phase == Answered(Failed)
             && s.requeues[s.tokens[k].row] == 0 && s.rows[s.tokens[k].row].retryCount + 1 < maxRetries
    ensures var s := Run(Start, maxRetries, steps);
            var i := s.tokens[k].row;
            var s2 := Run(Next(s, maxRetries, Mark(k, true)), maxRetries, later);
            && i < |s2.rows|
            && (s2.requeues[i] == 0 && s2.rows[i].retryCount == s.rows[i].retryCount
                && s2.now >= s.now + 4000 * Pow2(s.rows[i].retryCount) ==>
                  && s2.rows[i].status == RetryPending
                  && Next(s2, maxRetries, Claim(i)).rows[i].status == Processing
                  && Next(s2, maxRetries, Claim(i)).rows[i].retryCount == s.rows[i].retryCount + 1)
  {
    RunIsOwned(maxRetries, steps);
    var s := Run(Start, maxRetries, steps);
    var i := s.tokens[k].row;
    assert SingleOwner(s, i) && Holds(s.tokens[k], i);
    var s1 := Next(s, maxRetries, Mark(k, true));
    assert Unheld(s1, i);
    UnheldWaits(s1, maxRetries, later, i);
    ClaimTakesIff(Run(s1, maxRetries, later), maxRetries, i);
  }

  /** The step ends a hold on the row without settling it: its worker dies, or the status write after a failure is refused. */
  predicate LetsGo(s: Sys, st: Step, i: nat) {
    match st
    case Crash(k) => k < |s.tokens| && Holds(s.tokens[k], i)
    case Mark(k, writeOk) =>
      k < |s.tokens| && s.tokens[k].row == i && s.tokens[k].phase.Answered? && !s.tokens[k].phase.answer.Accepted? && !writeOk
    case _ => false
  }

  predicate EverLetGo(maxRetries: int, steps: seq<Step>, i: nat) {
    steps != [] &&
    var before := steps[..|steps| - 1];
    EverLetGo(maxRetries, before, i) || LetsGo(Run(Start, maxRetries, before), steps[|steps| - 1], i)
  }

  ghost predicate Abandoned(s: Sys, i: nat)
    requires i < |s.rows|
  {
    s.rows[i].status.Processing? && Unheld(s, i)
  }

  lemma AbandonedStep(s: Sys, maxRetries: int, st: Step, i: nat)
    requires WellFormed(s) && i < |s.rows| && SingleOwner(s, i)
    ensures var s' := Next(s, maxRetries, st);
            && i < |s'.rows|
            && (s'.requeues[i] == 0 ==> (Abandoned(s', i) <==> Abandoned(s, i) || LetsGo(s, st, i)))
  {
    match st
    case Claim(j) =>
      if Claims(s, st, j) {
        var s' := Next(s, maxRetries, st);
        assert Holds(s'.tokens[|s.tokens|], j);
        assert forall k :: 0 <= k < |s.tokens| ==> s'.tokens[k] == s.tokens[k];
      }
    case Submit(k, weather) =>
      if k < |s.tokens| && s.tokens[k].phase.InFlight? {
        SamePhaseHolds(s, k, Answered(AnswerOfAttempt(World(s), s.rows[s.tokens[k].row].action, s.rows[s.tokens[k].row].payload, weather)), i);
      }
    case Mark(k, writeOk) =>
      if k < |s.tokens| && s.tokens[k].phase.Answered? && s.requeues[i] == 0 {
        AbandonedMark(s, maxRetries, k, writeOk, i);
      }
    case Crash(k) =>
      if k < |s.tokens| {
        ClosedHold(s, k, i);
      }
    case _ =>
  }

  lemma SamePhaseHolds(s: Sys, k: nat, phase: Phase, i: nat)
    requires k < |s.tokens| && !s.tokens[k].phase.Over? && !phase.Over?
    ensures Unheld(WithPhase(s, k, phase), i) <==> Unheld(s, i)
  {
    var s' := WithPhase(s, k, phase);
    assert forall j :: 0 <= j < |s.tokens| ==> (Holds(s'.tokens[j], i) <==> Holds(s.tokens[j], i));
  }

  /** Closing a token leaves the row unheld exactly when no other token held it. */
  lemma ClosedHold(s: Sys, k: nat, i: nat)
    requires k < |s.tokens|
    ensures Unheld(WithPhase(s, k, Over), i) <==> forall j :: 0 <= j < |s.tokens| && j != k ==> !Holds(s.tokens[j], i)
  {
    var s' := WithPhase(s, k, Over);
    assert forall j :: 0 <= j < |s.tokens| ==> (Holds(s'.tokens[j], i) <==> j != k && Holds(s.tokens[j], i));
  }

  lemma AbandonedMark(s: Sys, maxRetries: int, k: nat, writeOk: bool, i: nat)
    requires WellFormed(s) && i < |s.rows| && SingleOwner(s, i) && s.requeues[i] == 0
    requires k < |s.tokens| && s.tokens[k].phase.Answered?
    ensures Abandoned(Marked(s, k, writeOk, maxRetries), i) <==> Abandoned(s, i) || LetsGo(s, Mark(k, writeOk), i)
  {
    ClosedHold(s, k, i);
    SamePhaseHolds(s, k, Answered(Failed), i);
  }

  /** A never requeued row is PROCESSING without an owner exactly when some step of the run let it go. */
  lemma {:induction false} AbandonedIffLetGo(maxRetries: int, steps: seq<Step>, i: nat)
    ensures var s := Run(Start, maxRetries, steps);
            && (i < |s.rows| && s.requeues[i] == 0 ==> (Abandoned(s, i) <==> EverLetGo(maxRetries, steps, i)))
            && (i >= |s.rows| ==> !EverLetGo(maxRetries, steps, i))
  {
    if steps != [] {
      var before, st := Run(Start, maxRetries, steps[..|steps| - 1]), steps[|steps| - 1];
      AbandonedIffLetGo(maxRetries, steps[..|steps| - 1], i);
      RunIsOwned(maxRetries, steps[..|steps| - 1]);
      if i < |before.rows| {
        AbandonedStep(before, maxRetries, st, i);
        RowsGrow(before, maxRetries, st, i);
      } else {
        OneMoreClaim(before, maxRetries, st, i);
      }
    }
  }

  /**
   A never requeued row whose claims are spent and whom no worker holds rests for ever, in COMPLETED or
   FAILED_REQUIRES_REVIEW unless some step of the run let it go, and in PROCESSING if one did.
   */
  lemma SpentRowRests(maxRetries: int, steps: seq<Step>, i: nat, later: seq<Step>)
    requires var s := Run(Start, maxRetries, steps);
             i < |s.rows| && Unheld(s, i) && s.rows[i].retryCount >= Max(1, maxRetries - 1)
    ensures var s, s' := Run(Start, maxRetries, steps), Run(Run(Start, maxRetries, steps), maxRetries, later);
            && i < |s'.rows|
            && (s'.requeues[i] == 0 ==>
                  && s'.rows[i] == s.rows[i]
                  && (s.rows[i].status.Completed? || s.rows[i].status.FailedRequiresReview? <==> !EverLetGo(maxRetries, steps, i))
                  && (s.rows[i].status.Processing? <==> EverLetGo(maxRetries, steps, i)))
  {
    var s := Run(Start, maxRetries, steps);
    RunIsBounded(maxRetries, steps);
    SpentRests(s, maxRetries, i, later);
    AbandonedIffLetGo(maxRetries, steps, i);
    UnheldWaits(s, maxRetries, later, i);
  }

  lemma SpentRests(s: Sys, maxRetries: int, i: nat, later: seq<Step>)
    requires Bounded(s, maxRetries) && i < |s.rows| && Unheld(s, i) && s.rows[i].retryCount >= Max(1, maxRetries - 1)
    ensures var s' := Run(s, maxRetries, later);
            && i < |s'.rows|
            && (s'.requeues[i] == 0 ==> !Claimable(s.rows[i]) && s'.rows[i] == s.rows[i])
  {
    UnheldWaits(s, maxRetries, later, i);
    SpentIsNotClaimable(s, maxRetries, i);
  }

  lemma SpentIsNotClaimable(s: Sys, maxRetries: int, i: nat)
    requires Bounded(s, maxRetries) && i < |s.rows| && s.rows[i].retryCount >= Max(1, maxRetries - 1)
    ensures s.requeues[i] == 0 ==> !Claimable(s.rows[i])
  {
    assert Potential(s, i, maxRetries) <= 1 + s.requeues[i] + Max(0, maxRetries - 2);
  }

  /** There is no lease: a PROCESSING row whose worker crashed stays so until an administrator requeues it. */
  lemma AbandonedRowIsStuck(maxRetries: int, steps: seq<Step>, i: nat, later: seq<Step>)
    requires var s := Run(Start, maxRetries, steps);
             i < |s.rows| && Unheld(s, i) && s.rows[i].status.Processing?
    ensures var s, s' := Run(Start, maxRetries, steps), Run(Run(Start, maxRetries, steps), maxRetries, later);
            i < |s'.rows| && (s'.requeues[i] == s.requeues[i] ==> s'.rows[i] == s.rows[i])
  {
    UnheldWaits(Run(Start, maxRetries, steps), maxRetries, later, i);
  }

  // ---------------------------------------------------------------- the batch as steps

  /** The status writes of a worker that has its answer, as far as the weather lets them through. */
  function Finished(s: Sys, maxRetries: int, k: nat, weather: Weather): (s': Sys)
    requires WellFormed(s) && k < |s.tokens| && s.tokens[k].phase.Answered?
    ensures WellFormed(s')
  {
    NextIsWellFormed(s, maxRetries, Mark(k, false));
    var s2 := if s.tokens[k].phase.answer.Accepted? && !weather.completedWriteOk then Next(s, maxRetries, Mark(k, false)) else s;
    var st := Mark(k, s2.tokens[k].phase.answer.Accepted? || weather.failureWriteOk);
    NextIsWellFormed(s2, maxRetries, st);
    Next(s2, maxRetries, st)
  }

  /** The steps of an undisturbed worker on a row it has claimed: submit, then write the status. */
  function Served(s: Sys, maxRetries: int, k: nat, weather: Weather): (s': Sys)
    requires WellFormed(s) && k < |s.tokens| && s.tokens[k].phase.InFlight?
    ensures WellFormed(s')
  {
    NextIsWellFormed(s, maxRetries, Submit(k, weather));
    Finished(Next(s, maxRetries, Submit(k, weather)), maxRetries, k, weather)
  }

  lemma FinishedSettles(s: Sys, maxRetries: int, k: nat, weather: Weather)
    requires WellFormed(s) && k < |s.tokens| && s.tokens[k].phase.Answered? && weather.clock == s.now
    ensures var t := s.tokens[k];
            var settled := Settled(s.rows[t.row], t.attempt, t.phase.answer, maxRetries, weather);
            var s' := Finished(s, maxRetries, k, weather);
            && s'.rows == (if settled.None? then s.rows else s.rows[t.row := settled.value])
            && s'.calls == s.calls && s'.tokens == s.tokens[k := t.(phase := Over)]
  {
  }

  /** The batch's treatment of one record is these steps: same row, same ledger, hold released. */
  lemma BatchServesBySteps(s: Sys, maxRetries: int, k: nat, weather: Weather)
    requires WellFormed(s) && k < |s.tokens| && s.tokens[k].phase.InFlight?
    requires s.tokens[k].attempt == s.rows[s.tokens[k].row].retryCount && weather.clock == s.now
    ensures var i := s.tokens[k].row;
            var settled := SettledBy(World(s), s.rows[i], maxRetries, weather);
            var s' := Served(s, maxRetries, k, weather);
            && s'.rows == (if settled.None? then s.rows else s.rows[i := settled.value])
            && World(s') == WorldAfterAttempt(World(s), s.rows[i].action, s.rows[i].payload, weather)
            && s'.tokens == s.tokens[k := s.tokens[k].(phase := Over)]
  {
    WorldAfterSubmission(s, k, weather);
    FinishedSettles(Next(s, maxRetries, Submit(k, weather)), maxRetries, k, weather);
  }

  // ---------------------------------------------------------------- payloads that never leave

  /** The decision payload of the automatic evaluation. */
  function EvaluationPayload(sbomID: string, decisionId: string, trust: L.Trust, code: string, desc: string, policy: string,
                             bundleHash: string): Payload
  {
    Payload("3.0", sbomID, decisionId, trust, code, desc, if policy == "" then "3.0" else policy, "", "", None, None, 0.0,
            bundleHash, "", "", "", "")
  }

  /** The payload of the evaluate route and, with an empty key, of the expiry worker: neither sets the bundle hash. */
  function ReevaluationPayload(sbomID: string, decisionId: string, trust: L.Trust, code: string, desc: string, policy: string,
                               idempotencyKey: string): Payload
  {
    EvaluationPayload(sbomID, decisionId, trust, code, desc, policy, "").(idempotencyKey := idempotencyKey)
  }

  lemma ReevaluationIsInvalid(sbomID: string, decisionId: string, trust: L.Trust, code: string, desc: string, policy: string, key: string)
    ensures !PayloadValid(RecordTrustDecision, ReevaluationPayload(sbomID, decisionId, trust, code, desc, policy, key))
  {
  }

  /** Only the bundle hash separates the two: the automatic payload passes the worker's check. */
  lemma EvaluationIsValidIff(sbomID: string, decisionId: string, trust: L.Trust, code: string, desc: string, policy: string, bundleHash: string)
    ensures PayloadValid(RecordTrustDecision, EvaluationPayload(sbomID, decisionId, trust, code, desc, policy, bundleHash)) <==>
            sbomID != "" && decisionId != "" && !trust.Unset? && code != "" && desc != "" && bundleHash != ""
  {
  }

  ghost predicate Invalid(s: Sys, i: nat)
    requires i < |s.rows|
  {
    !PayloadValid(s.rows[i].action, s.rows[i].payload)
  }

  /** Attempts on an invalid row only ever answer Misconfigured. */
  ghost predicate RefusedRows(s: Sys) {
    && WellFormed(s)
    && (forall i :: 0 <= i < |s.rows| && Invalid(s, i) ==>
          !s.rows[i].status.Completed? && (s.rows[i].status.RetryPending? ==> s.requeues[i] > 0))
    && (forall k :: 0 <= k < |s.tokens| && s.tokens[k].phase.Answered? && Invalid(s, s.tokens[k].row) ==>
          s.tokens[k].phase.answer.Misconfigured?)
  }

  lemma RefusedMark(s: Sys, maxRetries: int, k: nat, writeOk: bool)
    requires RefusedRows(s) && k < |s.tokens| && s.tokens[k].phase.Answered?
    ensures RefusedRows(Marked(s, k, writeOk, maxRetries))
  {
    assert forall i :: 0 <= i < |s.rows| ==> (Invalid(Marked(s, k, writeOk, maxRetries), i) <==> Invalid(s, i));
  }

  lemma RefusedStep(s: Sys, maxRetries: int, st: Step)
    requires RefusedRows(s)
    ensures RefusedRows(Next(s, maxRetries, st))
  {
    var s' := Next(s, maxRetries, st);
    NextIsWellFormed(s, maxRetries, st);
    assert forall i :: 0 <= i < |s.rows| ==> (Invalid(s', i) <==> Invalid(s, i)) by {
      forall i | 0 <= i < |s.rows| ensures Invalid(s', i) <==> Invalid(s, i) {
        RowsGrow(s, maxRetries, st, i);
      }
    }
    match st
    case Mark(k, writeOk) =>
      if k < |s.tokens| && s.tokens[k].phase.Answered? {
        RefusedMark(s, maxRetries, k, writeOk);
      }
    case _ =>
  }

  lemma {:induction false} RunIsRefused(maxRetries: int, steps: seq<Step>)
    ensures RefusedRows(Run(Start, maxRetries, steps))
  {
    if steps != [] {
      RunIsRefused(maxRetries, steps[..|steps| - 1]);
      RefusedStep(Run(Start, maxRetries, steps[..|steps| - 1]), maxRetries, steps[|steps| - 1]);
    }
  }

  /** A row with an invalid payload never completes and is never retried by a worker. */
  lemma InvalidPayloadNeverLeaves(maxRetries: int, steps: seq<Step>, i: nat)
    requires i < |Run(Start, maxRetries, steps).rows| && Invalid(Run(Start, maxRetries, steps), i)
    ensures var s := Run(Start, maxRetries, steps);
            && !s.rows[i].status.Completed?
            && (s.requeues[i] == 0 ==> s.rows[i].status in {Pending, Processing, FailedRequiresReview})
  {
    RunIsRefused(maxRetries, steps);
    RefusedAt(Run(Start, maxRetries, steps), i);
  }

  lemma RefusedAt(s: Sys, i: nat)
    requires RefusedRows(s) && i < |s.rows| && Invalid(s, i)
    ensures !s.rows[i].status.Completed?
    ensures s.requeues[i] == 0 ==> s.rows[i].status in {Pending, Processing, FailedRequiresReview}
  {
  }

  /** Submitting it puts nothing on the ledger. */
  lemma InvalidPayloadSubmitsNothing(s: Sys, maxRetries: int, k: nat, weather: Weather)
    requires WellFormed(s) && k < |s.tokens| && Invalid(s, s.tokens[k].row)
    ensures Next(s, maxRetries, Submit(k, weather)).calls == s.calls
  {
    assert s.calls + [] == s.calls;
  }
}

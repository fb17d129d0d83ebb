/** The ledger outbox: its rows, its repository operations, and the worker batch that carries rows to the ledger. */
module OutboxModel {
  import opened Prelude
  import L = LedgerModel

  datatype Action = RecordTrustDecision | RecordTrustEvidence | OtherAction(name: string)

  datatype RowStatus = Pending | Processing | RetryPending | Completed | FailedRequiresReview

  /** The fields of the JSON payload that the worker or the contract read; an empty string stands for an absent one. */
  datatype Payload = Payload(
    version: string, sbomID: string, decisionId: string, trustStatus: L.Trust, reasonCode: string,
    reasonDescription: string, policyVersion: string, idempotencyKey: string, provenanceHash: string,
    signatureHashes: L.Slice, activeVexIds: L.Slice, effectiveRiskScore: real, evidenceBundleHash: string,
    evidenceId: string, evidenceType: string, evidenceHash: string, evidencePayload: string)

  datatype Row = Row(action: Action, payload: Payload, status: RowStatus, retryCount: nat, nextAttemptAt: int)

  function AsDecision(p: Payload): L.DecisionInput {
    L.DecisionInput(p.version, p.sbomID, p.decisionId, p.trustStatus, p.reasonCode, p.reasonDescription, p.policyVersion,
                    p.idempotencyKey, p.provenanceHash, p.signatureHashes, p.activeVexIds, p.effectiveRiskScore,
                    p.evidenceBundleHash)
  }

  function AsEvidence(p: Payload): L.EvidenceInput {
    L.EvidenceInput(p.version, p.sbomID, p.evidenceType, p.evidenceHash, p.evidenceId, p.evidencePayload)
  }

  // ---------------------------------------------------------------- one delivery attempt

  /** Where the submission of one transaction can be lost. */
  datatype Delivery = Delivered | LostBeforeCommit | LostAfterCommit

  /** What one record meets: the gateway identity, the transaction's fate, the fate of the status writes, the clock. */
  datatype Weather = Weather(
    identityMissing: bool, ctx: L.Context, delivery: Delivery, completedWriteOk: bool, failureWriteOk: bool, clock: int)

  /** How the attempt looks to the worker. */
  datatype Answer = Accepted | Misconfigured | Failed

  predicate PayloadValid(action: Action, p: Payload) {
    match action
    case RecordTrustDecision =>
      && p.version != "" && p.sbomID != "" && p.decisionId != "" && !p.trustStatus.Unset? && p.reasonCode != ""
      && p.reasonDescription != "" && p.policyVersion != "" && p.evidenceBundleHash != "" && p.evidenceType == ""
    case RecordTrustEvidence =>
      && p.version != "" && p.sbomID != "" && p.evidenceId != "" && p.evidenceType != "" && p.evidenceHash != ""
      && p.trustStatus.Unset?
    case OtherAction(_) => false
  }

  function TxOf(action: Action, p: Payload): L.Tx {
    if action.RecordTrustEvidence? then L.Attest(AsEvidence(p)) else L.Decide(AsDecision(p))
  }

  function AnswerTo(reply: L.Reply, delivery: Delivery): Answer {
    if !delivery.Delivered? then Failed
    else match reply
      case Ok(_) => Accepted
      case Err(e) => if e.UnauthorizedMsp? then Misconfigured else Failed
  }

  /** The world after the attempt; a transaction can commit although the worker sees an error. */
  function WorldAfterAttempt(w: L.World, action: Action, p: Payload, weather: Weather): L.World {
    if !PayloadValid(action, p) || weather.identityMissing || weather.delivery.LostBeforeCommit? then w
    else L.Apply(w, weather.ctx, TxOf(action, p))
  }

  function AnswerOfAttempt(w: L.World, action: Action, p: Payload, weather: Weather): Answer {
    if !PayloadValid(action, p) || weather.identityMissing then Misconfigured
    else AnswerTo(L.ReplyTo(w, weather.ctx, TxOf(action, p)), weather.delivery)
  }

  // ---------------------------------------------------------------- row updates

  function Pow2(n: nat): (p: nat)
    ensures p >= 1
  {
    if n == 0 then 1 else 2 * Pow2(n - 1)
  }

  predicate Eligible(r: Row, now: int) {
    (r.status.Pending? || r.status.RetryPending?) && r.nextAttemptAt <= now
  }

  function Claimed(r: Row): Row {
    r.(status := Processing, retryCount := r.retryCount + 1)
  }

  function Coalesce(given: Option<int>, stored: int): int {
    if given.Some? then given.value else stored
  }

  /** The unguarded status update. */
  function Updated(r: Row, status: RowStatus, next: Option<int>): Row {
    r.(status := status, nextAttemptAt := Coalesce(next, r.nextAttemptAt))
  }

  /** How the worker settles an unsuccessful record that it claimed as its `attempt`-th. */
  function AfterFailure(r: Row, attempt: nat, answer: Answer, maxRetries: int, clock: int): Row {
    if answer.Misconfigured? || attempt + 1 >= maxRetries then Updated(r, FailedRequiresReview, None)
    else Updated(r, RetryPending, Some(clock + Pow2(attempt + 1) * 2000))
  }

  /** The settled row, or None when the status write itself throws out of the batch. */
  function Settled(r: Row, attempt: nat, answer: Answer, maxRetries: int, weather: Weather): Option<Row> {
    if answer.Accepted? && weather.completedWriteOk then Some(Updated(r, Completed, None))
    else if !weather.failureWriteOk then None
    else Some(AfterFailure(r, attempt, if answer.Accepted? then Failed else answer, maxRetries, weather.clock))
  }

  lemma SettledIsSettled(r: Row, attempt: nat, answer: Answer, maxRetries: int, weather: Weather)
    requires Settled(r, attempt, answer, maxRetries, weather).Some?
    ensures var r' := Settled(r, attempt, answer, maxRetries, weather).value;
            && r'.payload == r.payload && r'.retryCount == r.retryCount
            && (r'.status.Completed? <==> answer.Accepted? && weather.completedWriteOk)
            && (r'.status.RetryPending? <==> !r'.status.Completed? && !answer.Misconfigured? && attempt + 1 < maxRetries)
            && (r'.status.RetryPending? ==> r'.nextAttemptAt == weather.clock + 4000 * Pow2(attempt))
            && (r'.status.Completed? || r'.status.RetryPending? || r'.status.FailedRequiresReview?)
  {
  }

  /** When a claimed row ends how, by what its attempt met. */
  lemma SettledByIff(w: L.World, r: Row, maxRetries: int, weather: Weather)
    ensures var reply := L.ReplyTo(w, weather.ctx, TxOf(r.action, r.payload));
            var sent := PayloadValid(r.action, r.payload) && !weather.identityMissing;
            var completed := sent && weather.delivery == Delivered && reply == Ok(()) && weather.completedWriteOk;
            var hopeless := !sent || (weather.delivery == Delivered && reply == Err(L.UnauthorizedMsp));
            match SettledBy(w, r, maxRetries, weather)
            case None => !completed && !weather.failureWriteOk
            case Some(r') =>
              && (completed || weather.failureWriteOk)
              && r'.status == (if completed then Completed
                               else if hopeless || r.retryCount + 1 >= maxRetries then FailedRequiresReview
                               else RetryPending)
              && r'.nextAttemptAt == (if r'.status == RetryPending then weather.clock + 4000 * Pow2(r.retryCount) else r.nextAttemptAt)
              && r'.retryCount == r.retryCount && r'.payload == r.payload && r'.action == r.action
  {
  }

  /** What an attempt leaves on the ledger: the transaction, unless it was never sent or was lost on the way there. */
  lemma AttemptIff(w: L.World, action: Action, p: Payload, weather: Weather)
    ensures var sent := PayloadValid(action, p) && !weather.identityMissing && weather.delivery != LostBeforeCommit;
            var tx := if action == RecordTrustDecision then L.Decide(AsDecision(p)) else L.Attest(AsEvidence(p));
            WorldAfterAttempt(w, action, p, weather) == if sent then L.Apply(w, weather.ctx, tx) else w
  {
  }

  /** A payload passes when none of its mandatory texts is missing and it is not of the other kind. */
  lemma ValidPayloadIff(p: Payload)
    ensures PayloadValid(RecordTrustDecision, p) <==>
            && "" !in [p.version, p.sbomID, p.decisionId, p.reasonCode, p.reasonDescription, p.policyVersion, p.evidenceBundleHash]
            && p.trustStatus != L.Unset && p.evidenceType == ""
    ensures PayloadValid(RecordTrustEvidence, p) <==>
            "" !in [p.version, p.sbomID, p.evidenceId, p.evidenceType, p.evidenceHash] && p.trustStatus == L.Unset
    ensures forall name :: !PayloadValid(OtherAction(name), p)
  {
  }

  // ---------------------------------------------------------------- the store

  predicate Increasing(ids: seq<nat>) {
    forall j, k :: 0 <= j < k < |ids| ==> ids[j] < ids[k]
  }

  /** The first `limit` eligible rows in creation order. */
  ghost predicate IsClaim(ids: seq<nat>, rows: seq<Row>, now: int, limit: nat) {
    && Increasing(ids) && |ids| <= limit
    && (forall k :: 0 <= k < |ids| ==> ids[k] < |rows| && Eligible(rows[ids[k]], now))
    && (forall i :: 0 <= i < |rows| && Eligible(rows[i], now) && i !in ids ==>
          |ids| == limit && forall k :: 0 <= k < |ids| ==> ids[k] < i)
  }

  /** What the requeue route checks on the row it read; the update that follows does not check again. */
  predicate MayRequeue(r: Row) {
    r.status.FailedRequiresReview? || r.status.RetryPending?
  }

  /** The rows before the i-th that wait for a delivery whose time has come. */
  function WaitingBefore(rows: seq<Row>, i: nat, now: int): nat
    requires i <= |rows|
  {
    if i == 0 then 0
    else
      WaitingBefore(rows, i - 1, now)
      + if (rows[i - 1].status == Pending || rows[i - 1].status == RetryPending) && rows[i - 1].nextAttemptAt <= now then 1 else 0
  }

  /** The claim, as far as the first i rows go. */
  function ClaimOf(rows: seq<Row>, i: nat, now: int, limit: nat): seq<nat>
    requires i <= |rows|
  {
    if i == 0 then []
    else
      var ids := ClaimOf(rows, i - 1, now, limit);
      if Eligible(rows[i - 1], now) && |ids| < limit then ids + [i - 1] else ids
  }

  lemma {:induction false} ClaimIsBelow(rows: seq<Row>, i: nat, now: int, limit: nat)
    requires i <= |rows|
    ensures forall k :: k in ClaimOf(rows, i, now, limit) ==> 0 <= k < i && Eligible(rows[k], now)
    ensures Increasing(ClaimOf(rows, i, now, limit))
  {
    if i > 0 {
      var ids := ClaimOf(rows, i - 1, now, limit);
      ClaimIsBelow(rows, i - 1, now, limit);
      forall k | 0 <= k < |ids| ensures ids[k] < i - 1 {
        assert ids[k] in ids;
      }
    }
  }

  lemma {:induction false} ClaimSize(rows: seq<Row>, i: nat, now: int, limit: nat)
    requires i <= |rows|
    ensures |ClaimOf(rows, i, now, limit)| == Min(limit, WaitingBefore(rows, i, now))
  {
    if i > 0 {
      ClaimSize(rows, i - 1, now, limit);
    }
  }

  /** Row j is taken iff it waits, its time has come, and fewer than `limit` earlier rows do. */
  lemma {:induction false} ClaimTakes(rows: seq<Row>, i: nat, now: int, limit: nat, j: nat)
    requires j < i <= |rows|
    ensures j in ClaimOf(rows, i, now, limit) <==>
            && (rows[j].status == Pending || rows[j].status == RetryPending)
            && rows[j].nextAttemptAt <= now
            && WaitingBefore(rows, j, now) < limit
  {
    ClaimIsBelow(rows, i - 1, now, limit);
    ClaimSize(rows, i - 1, now, limit);
    if j < i - 1 {
      ClaimTakes(rows, i - 1, now, limit, j);
    }
  }

  lemma {:induction false} WaitingGrows(rows: seq<Row>, i: nat, j: nat, now: int)
    requires i <= j <= |rows|
    ensures WaitingBefore(rows, i, now) <= WaitingBefore(rows, j, now)
  {
    if i < j {
      WaitingGrows(rows, i, j - 1, now);
    }
  }

  lemma ClaimIsClaim(rows: seq<Row>, now: int, limit: nat)
    ensures IsClaim(ClaimOf(rows, |rows|, now, limit), rows, now, limit)
  {
    var ids := ClaimOf(rows, |rows|, now, limit);
    ClaimIsBelow(rows, |rows|, now, limit);
    ClaimSize(rows, |rows|, now, limit);
    forall k | 0 <= k < |ids| ensures ids[k] < |rows| && Eligible(rows[ids[k]], now) {
      assert ids[k] in ids;
    }
    forall i | 0 <= i < |rows| && Eligible(rows[i], now) && i !in ids
      ensures |ids| == limit && forall k :: 0 <= k < |ids| ==> ids[k] < i
    {
      LeftOutIsLater(rows, now, limit, i);
    }
  }

  lemma LeftOutIsLater(rows: seq<Row>, now: int, limit: nat, i: nat)
    requires i < |rows| && Eligible(rows[i], now) && i !in ClaimOf(rows, |rows|, now, limit)
    ensures var ids := ClaimOf(rows, |rows|, now, limit);
            |ids| == limit && forall k :: 0 <= k < |ids| ==> ids[k] < i
  {
    var ids := ClaimOf(rows, |rows|, now, limit);
    ClaimTakes(rows, |rows|, now, limit, i);
    ClaimSize(rows, |rows|, now, limit);
    WaitingGrows(rows, i, |rows|, now);
    ClaimIsBelow(rows, |rows|, now, limit);
    forall k | 0 <= k < |ids| ensures ids[k] < i {
      assert ids[k] in ids;
      ClaimTakes(rows, |rows|, now, limit, ids[k]);
      if i < ids[k] {
        WaitingGrows(rows, i, ids[k], now);
      }
    }
  }

  class OutboxStore {
    var rows: seq<Row>

    constructor ()
      ensures rows == []
    {
      rows := [];
    }

    method InsertOutboxRecord(action: Action, payload: Payload, now: int) returns (r: Result<nat, string>)
      modifies this
      ensures action.OtherAction? ==> r.Err? && rows == old(rows)
      ensures !action.OtherAction? ==>
                r == Ok(|old(rows)|) && rows == old(rows) + [Row(action, payload, Pending, 0, now)]
    {
      if action != RecordTrustDecision && action != RecordTrustEvidence {
        return Err("Unsupported outbox action");
      }
      rows := rows + [Row(action, payload, Pending, 0, now)];
      return Ok(|rows| - 1);
    }

    /** Claims row i iff it is PENDING or RETRY_PENDING, its time has come, and fewer than `limit` earlier rows qualify. */
    method ClaimPendingOutboxRecords(limit: nat, now: int) returns (ids: seq<nat>)
      modifies this
      ensures IsClaim(ids, old(rows), now, limit)
      ensures |rows| == |old(rows)|
      ensures forall i :: 0 <= i < |rows| ==>
                (i in ids <==>
                  && (old(rows)[i].status == Pending || old(rows)[i].status == RetryPending)
                  && old(rows)[i].nextAttemptAt <= now
                  && WaitingBefore(old(rows), i, now) < limit)
      ensures forall i :: 0 <= i < |rows| ==>
                var r := old(rows)[i];
                rows[i] == if i in ids then Row(r.action, r.payload, Processing, r.retryCount + 1, r.nextAttemptAt) else r
    {
      ids := [];
      ghost var before := rows;
      var i := 0;
      while i < |rows|
        invariant 0 <= i <= |rows| == |before| && ids == ClaimOf(before, i, now, limit)
        invariant forall j :: 0 <= j < |rows| ==> rows[j] == if j in ids then Claimed(before[j]) else before[j]
      {
        ClaimIsBelow(before, i, now, limit);
        assert i !in ids && rows[i] == before[i];
        if Eligible(rows[i], now) && |ids| < limit {
          rows := rows[i := Claimed(rows[i])];
          ids := ids + [i];
        }
        i := i + 1;
      }
      ClaimIsClaim(before, now, limit);
      forall j | 0 <= j < |before|
        ensures j in ids <==> (before[j].status == Pending || before[j].status == RetryPending)
                              && before[j].nextAttemptAt <= now && WaitingBefore(before, j, now) < limit
      {
        ClaimTakes(before, |before|, now, limit, j);
      }
    }

    method UpdateOutboxRecordStatus(i: nat, status: RowStatus, nextAttemptAt: Option<int>)
      requires i < |rows|
      modifies this
      ensures rows == old(rows)[i := old(rows)[i].(status := status,
                        nextAttemptAt := if nextAttemptAt == None then old(rows)[i].nextAttemptAt else nextAttemptAt.value)]
    {
      var next := if nextAttemptAt.Some? then nextAttemptAt.value else rows[i].nextAttemptAt;
      rows := rows[i := rows[i].(status := status, nextAttemptAt := next)];
    }

    /** The requeue route when nothing comes between its read and its update. */
    method HandleRequeueOutbox(i: nat, now: int) returns (r: Result<(), string>)
      modifies this
      ensures r.Ok? <==> i < |old(rows)| && (old(rows)[i].status == FailedRequiresReview || old(rows)[i].status == RetryPending)
      ensures rows == if r.Ok? then old(rows)[i := old(rows)[i].(status := Pending, nextAttemptAt := now)] else old(rows)
    {
      if i >= |rows| {
        return Err("Outbox record not found");
      }
      var record := rows[i];
      if record.status != FailedRequiresReview && record.status != RetryPending {
        return Err("Cannot requeue");
      }
      UpdateOutboxRecordStatus(i, Pending, Some(now));
      return Ok(());
    }

    /** Requeues whatever the status is. */
    method AdminRequeueOutboxRecord(i: nat, now: int) returns (r: Result<(), string>)
      modifies this
      ensures r.Ok? <==> i < |old(rows)|
      ensures rows == if i < |old(rows)| then old(rows)[i := old(rows)[i].(status := RetryPending, nextAttemptAt := now)] else old(rows)
    {
      if i >= |rows| {
        return Err("Outbox record not found");
      }
      rows := rows[i := rows[i].(status := RetryPending, nextAttemptAt := now)];
      return Ok(());
    }
  }

  // ---------------------------------------------------------------- the worker batch

  datatype Stats = Stats(claimed: nat, completed: nat, failedRequiresReview: nat, retryPending: nat)

  function ServedCount(s: Stats): nat {
    s.completed + s.failedRequiresReview + s.retryPending
  }

  function WithStatus(rows: seq<Row>, ids: seq<nat>, status: RowStatus): nat
    requires forall k :: 0 <= k < |ids| ==> ids[k] < |rows|
  {
    if ids == [] then 0
    else WithStatus(rows, ids[..|ids| - 1], status) + if rows[ids[|ids| - 1]].status == status then 1 else 0
  }

  lemma {:induction false} WithStatusLocal(rows: seq<Row>, rows': seq<Row>, ids: seq<nat>, status: RowStatus)
    requires forall k :: 0 <= k < |ids| ==> ids[k] < |rows| && ids[k] < |rows'| && rows[ids[k]] == rows'[ids[k]]
    ensures WithStatus(rows, ids, status) == WithStatus(rows', ids, status)
  {
    if ids != [] {
      WithStatusLocal(rows, rows', ids[..|ids| - 1], status);
    }
  }

  /** The ledger after the first k claimed records. */
  function WorldAfter(w: L.World, rows: seq<Row>, ids: seq<nat>, weather: nat -> Weather, k: nat): L.World
    requires k <= |ids|
    requires forall j :: 0 <= j < |ids| ==> ids[j] < |rows|
  {
    if k == 0 then w
    else
      var r := rows[ids[k - 1]];
      WorldAfterAttempt(WorldAfter(w, rows, ids, weather, k - 1), r.action, r.payload, weather(k - 1))
  }

  /** How the k-th claimed record ends; its rows are taken as they were claimed. */
  function OutcomeOf(w: L.World, rows: seq<Row>, ids: seq<nat>, weather: nat -> Weather, maxRetries: int, k: nat): Option<Row>
    requires k < |ids|
    requires forall j :: 0 <= j < |ids| ==> ids[j] < |rows|
  {
    SettledBy(WorldAfter(w, rows, ids, weather, k), rows[ids[k]], maxRetries, weather(k))
  }

  /** The end of one claimed row that meets the given world and weather. */
  function SettledBy(w: L.World, r: Row, maxRetries: int, weather: Weather): Option<Row> {
    Settled(r, r.retryCount, AnswerOfAttempt(w, r.action, r.payload, weather), maxRetries, weather)
  }

  /** The body of the worker's loop, its try block and its catch block. */
  method ServeRecord(store: OutboxStore, ledger: L.Ledger, i: nat, maxRetries: int, weather: Weather, stats: Stats)
    returns (stats': Stats, threw: bool)
    requires i < |store.rows|
    modifies store, ledger
    ensures var r := old(store.rows)[i];
            var settled := SettledBy(old(ledger.State()), r, maxRetries, weather);
            && ledger.State() == WorldAfterAttempt(old(ledger.State()), r.action, r.payload, weather)
            && (threw <==> settled.None?)
            && store.rows == (if threw then old(store.rows) else old(store.rows)[i := settled.value])
            && stats' == (if threw then stats else Counted(stats, settled.value.status))
  {
    var record := store.rows[i];
    var retryCount := record.retryCount + 1;
    threw, stats' := false, stats;
    var failure: Answer;
    var valid := ValidatePayload(record.action, record.payload);
    if !valid || weather.identityMissing {
      failure := Misconfigured;
    } else {
      failure := SubmitTransaction(ledger, record, weather);
      if failure.Accepted? {
        if weather.completedWriteOk {
          store.UpdateOutboxRecordStatus(i, Completed, None);
          stats' := stats.(completed := stats.completed + 1);
          return;
        }
        failure := Failed;
      }
    }
    if !weather.failureWriteOk {
      threw := true;
    } else if failure.Misconfigured? {
      store.UpdateOutboxRecordStatus(i, FailedRequiresReview, None);
      stats' := stats.(failedRequiresReview := stats.failedRequiresReview + 1);
    } else if retryCount >= maxRetries {
      store.UpdateOutboxRecordStatus(i, FailedRequiresReview, None);
      stats' := stats.(failedRequiresReview := stats.failedRequiresReview + 1);
    } else {
      var backoffMs := Pow2(retryCount) * 2000;
      store.UpdateOutboxRecordStatus(i, RetryPending, Some(weather.clock + backoffMs));
      stats' := stats.(retryPending := stats.retryPending + 1);
    }
  }

  function Counted(s: Stats, status: RowStatus): Stats {
    match status
    case Completed => s.(completed := s.completed + 1)
    case RetryPending => s.(retryPending := s.retryPending + 1)
    case FailedRequiresReview => s.(failedRequiresReview := s.failedRequiresReview + 1)
    case _ => s
  }

  /** The loops over the mandatory fields, then the check for the other kind. */
  method ValidatePayload(action: Action, p: Payload) returns (ok: bool)
    ensures ok == PayloadValid(action, p)
  {
    if action.OtherAction? {
      return false;
    }
    var required :=
      if action.RecordTrustDecision?
      then [p.version, p.sbomID, p.decisionId, p.reasonCode, p.reasonDescription, p.policyVersion, p.evidenceBundleHash]
      else [p.version, p.sbomID, p.evidenceId, p.evidenceType, p.evidenceHash];
    ValidPayloadIff(p);
    var i := 0;
    while i < |required|
      invariant 0 <= i <= |required|
      invariant "" !in required[..i]
    {
      if required[i] == "" {
        return false;
      }
      i := i + 1;
    }
    assert required[..i] == required;
    if action.RecordTrustDecision? {
      return !p.trustStatus.Unset? && p.evidenceType == "";
    }
    return p.trustStatus.Unset?;
  }

  method SubmitTransaction(ledger: L.Ledger, record: Row, weather: Weather) returns (answer: Answer)
    requires PayloadValid(record.action, record.payload) && !weather.identityMissing
    modifies ledger
    ensures ledger.State() == WorldAfterAttempt(old(ledger.State()), record.action, record.payload, weather)
    ensures answer == AnswerOfAttempt(old(ledger.State()), record.action, record.payload, weather)
  {
    if weather.delivery.LostBeforeCommit? {
      return Failed;
    }
    var reply: L.Reply;
    if record.action.RecordTrustDecision? {
      reply := ledger.RecordTrustDecision(weather.ctx, AsDecision(record.payload));
    } else {
      reply := ledger.RecordTrustEvidence(weather.ctx, AsEvidence(record.payload));
    }
    return AnswerTo(reply, weather.delivery);
  }

  /** The rows of a batch after its first k claimed records: each settled as its own attempt says, the others as claimed. */
  ghost predicate RowsServed(claimedRows: seq<Row>, ids: seq<nat>, outcome: nat -> Option<Row>, rows: seq<Row>, k: nat) {
    && k <= |ids| && |rows| == |claimedRows| && (forall j :: 0 <= j < |ids| ==> ids[j] < |claimedRows|)
    && (forall i :: 0 <= i < |claimedRows| && i !in ids[..k] ==> rows[i] == claimedRows[i])
    && (forall j :: 0 <= j < k ==> outcome(j) == Some(rows[ids[j]]))
  }

  /** The counters count the first k claimed records by their final status. */
  ghost predicate CountsMatch(rows: seq<Row>, ids: seq<nat>, stats: Stats, k: nat) {
    && k <= |ids| && stats.claimed == |ids| && k == ServedCount(stats)
    && (forall j :: 0 <= j < |ids| ==> ids[j] < |rows|)
    && stats.completed == WithStatus(rows, ids[..k], Completed)
    && stats.failedRequiresReview == WithStatus(rows, ids[..k], FailedRequiresReview)
    && stats.retryPending == WithStatus(rows, ids[..k], RetryPending)
  }

  lemma RowsStep(claimedRows: seq<Row>, ids: seq<nat>, outcome: nat -> Option<Row>, rows: seq<Row>, k: nat)
    requires RowsServed(claimedRows, ids, outcome, rows, k) && k < |ids| && Increasing(ids)
    requires outcome(k).Some?
    ensures RowsServed(claimedRows, ids, outcome, rows[ids[k] := outcome(k).value], k + 1)
  {
    var rows' := rows[ids[k] := outcome(k).value];
    TakeSnoc(ids, k);
    forall i | 0 <= i < |claimedRows| && i !in ids[..k + 1] ensures rows'[i] == claimedRows[i] {
      assert i !in ids[..k] && i != ids[k];
    }
  }

  function Outcomes(w: L.World, rows: seq<Row>, ids: seq<nat>, weather: nat -> Weather, maxRetries: int): nat -> Option<Row>
    requires forall j :: 0 <= j < |ids| ==> ids[j] < |rows|
  {
    (k: nat) => if k < |ids| then OutcomeOf(w, rows, ids, weather, maxRetries, k) else None
  }

  lemma OutcomeStatus(w: L.World, rows: seq<Row>, ids: seq<nat>, weather: nat -> Weather, maxRetries: int, k: nat)
    requires k < |ids|
    requires forall j :: 0 <= j < |ids| ==> ids[j] < |rows|
    ensures var outcome := Outcomes(w, rows, ids, weather, maxRetries)(k);
            && (outcome.Some? ==> outcome.value.status in {Completed, FailedRequiresReview, RetryPending})
            && (weather(k).failureWriteOk ==> outcome.Some?)
  {
    var r := rows[ids[k]];
    var answer := AnswerOfAttempt(WorldAfter(w, rows, ids, weather, k), r.action, r.payload, weather(k));
    if Settled(r, r.retryCount, answer, maxRetries, weather(k)).Some? {
      SettledIsSettled(r, r.retryCount, answer, maxRetries, weather(k));
    }
  }

  /** What serving the k-th record means for the outcomes and for the ledger. */
  lemma ServingUnfolds(w: L.World, rows: seq<Row>, ids: seq<nat>, weather: nat -> Weather, maxRetries: int, k: nat)
    requires k < |ids|
    requires forall j :: 0 <= j < |ids| ==> ids[j] < |rows|
    ensures var r, before := rows[ids[k]], WorldAfter(w, rows, ids, weather, k);
            && WorldAfter(w, rows, ids, weather, k + 1) == WorldAfterAttempt(before, r.action, r.payload, weather(k))
            && Outcomes(w, rows, ids, weather, maxRetries)(k) ==
               SettledBy(before, r, maxRetries, weather(k))
  {
  }

  lemma CountsStep(rows: seq<Row>, ids: seq<nat>, stats: Stats, k: nat, settled: Row)
    requires CountsMatch(rows, ids, stats, k) && k < |ids| && Increasing(ids)
    requires settled.status in {Completed, FailedRequiresReview, RetryPending}
    ensures CountsMatch(rows[ids[k] := settled], ids, Counted(stats, settled.status), k + 1)
  {
    OneMore(rows, rows[ids[k] := settled], ids, k);
  }

  lemma BatchStarts(claimedRows: seq<Row>, ids: seq<nat>, outcome: nat -> Option<Row>)
    requires forall j :: 0 <= j < |ids| ==> ids[j] < |claimedRows|
    ensures RowsServed(claimedRows, ids, outcome, claimedRows, 0)
    ensures CountsMatch(claimedRows, ids, Stats(|ids|, 0, 0, 0), 0)
  {
  }

  lemma NotYetServed(ids: seq<nat>, k: nat)
    requires Increasing(ids) && k < |ids|
    ensures ids[k] !in ids[..k]
  {
  }

  /** One turn of the batch loop, seen against the whole batch. */
  method ServeClaimed(store: OutboxStore, ledger: L.Ledger, ids: seq<nat>, k: nat, maxRetries: int, weather: nat -> Weather,
                      stats: Stats, ghost w: L.World, ghost claimedRows: seq<Row>)
    returns (stats': Stats, threw: bool)
    requires Increasing(ids) && k < |ids| && forall j :: 0 <= j < |ids| ==> ids[j] < |claimedRows|
    requires RowsServed(claimedRows, ids, Outcomes(w, claimedRows, ids, weather, maxRetries), store.rows, k)
    requires CountsMatch(store.rows, ids, stats, k)
    requires ledger.State() == WorldAfter(w, claimedRows, ids, weather, k)
    modifies store, ledger
    ensures ledger.State() == WorldAfter(w, claimedRows, ids, weather, k + 1)
    ensures var outcome := Outcomes(w, claimedRows, ids, weather, maxRetries);
            && (threw <==> outcome(k).None?)
            && (threw ==> stats' == stats && store.rows == old(store.rows))
            && (!threw ==> RowsServed(claimedRows, ids, outcome, store.rows, k + 1) && CountsMatch(store.rows, ids, stats', k + 1))
  {
    NotYetServed(ids, k);
    ServingUnfolds(w, claimedRows, ids, weather, maxRetries, k);
    OutcomeStatus(w, claimedRows, ids, weather, maxRetries, k);
    ghost var rowsBefore := store.rows;
    stats', threw := ServeRecord(store, ledger, ids[k], maxRetries, weather(k), stats);
    if !threw {
      ghost var outcome := Outcomes(w, claimedRows, ids, weather, maxRetries);
      RowsStep(claimedRows, ids, outcome, rowsBefore, k);
      CountsStep(rowsBefore, ids, stats, k, outcome(k).value);
    }
  }

  /** Every claimed record, in order, until one throws out of the loop. */
  method ServeAll(store: OutboxStore, ledger: L.Ledger, ids: seq<nat>, maxRetries: int, weather: nat -> Weather, ghost outcome: nat -> Option<Row>)
    returns (stats: Stats, threw: bool)
    requires Increasing(ids) && forall j :: 0 <= j < |ids| ==> ids[j] < |store.rows|
    requires outcome == Outcomes(ledger.State(), store.rows, ids, weather, maxRetries)
    modifies store, ledger
    ensures RowsServed(old(store.rows), ids, outcome, store.rows, ServedCount(stats))
    ensures CountsMatch(store.rows, ids, stats, ServedCount(stats))
    ensures threw <==> ServedCount(stats) < |ids|
    ensures threw ==> outcome(ServedCount(stats)).None?
    ensures ledger.State() ==
            WorldAfter(old(ledger.State()), old(store.rows), ids, weather, ServedCount(stats) + if threw then 1 else 0)
  {
    ghost var w, claimedRows := ledger.State(), store.rows;
    stats, threw := Stats(|ids|, 0, 0, 0), false;
    BatchStarts(claimedRows, ids, outcome);
    var k := 0;
    while k < |ids|
      invariant RowsServed(claimedRows, ids, outcome, store.rows, k)
      invariant CountsMatch(store.rows, ids, stats, k)
      invariant ledger.State() == WorldAfter(w, claimedRows, ids, weather, k)
    {
      stats, threw := ServeClaimed(store, ledger, ids, k, maxRetries, weather, stats, w, claimedRows);
      if threw {
        return;
      }
      k := k + 1;
    }
    threw := false;
  }

  /**
   One batch. Every claimed record ends as its own attempt says, in order; when all status writes get through, the
   counters add up to the claimed rows.
   */
  method ProcessOutboxBatch(store: OutboxStore, ledger: L.Ledger, batchSize: nat, maxRetries: int, now: int, weather: nat -> Weather)
    returns (stats: Stats, ids: seq<nat>, threw: bool, ghost claimedRows: seq<Row>)
    modifies store, ledger
    ensures IsClaim(ids, old(store.rows), now, batchSize)
    ensures |claimedRows| == |old(store.rows)|
    ensures forall i :: 0 <= i < |claimedRows| ==>
              claimedRows[i] == if i in ids then Claimed(old(store.rows)[i]) else old(store.rows)[i]
    ensures var outcome := Outcomes(old(ledger.State()), claimedRows, ids, weather, maxRetries);
            && RowsServed(claimedRows, ids, outcome, store.rows, ServedCount(stats))
            && (threw <==> ServedCount(stats) < |ids|)
            && (threw ==> outcome(ServedCount(stats)).None?)
    ensures CountsMatch(store.rows, ids, stats, ServedCount(stats))
    ensures (forall j :: 0 <= j < |ids| ==> ids[j] < |claimedRows|) && ServedCount(stats) + (if threw then 1 else 0) <= |ids|
    ensures ledger.State() ==
            WorldAfter(old(ledger.State()), claimedRows, ids, weather, ServedCount(stats) + if threw then 1 else 0)
  {
    ids := store.ClaimPendingOutboxRecords(batchSize, now);
    claimedRows := store.rows;
    stats, threw := ServeAll(store, ledger, ids, maxRetries, weather, Outcomes(ledger.State(), store.rows, ids, weather, maxRetries));
  }

  /** When every status write gets through, the counters add up to the claimed rows and none of them stays PROCESSING. */
  lemma BatchAddsUp(w: L.World, claimedRows: seq<Row>, ids: seq<nat>, weather: nat -> Weather, maxRetries: int, rows: seq<Row>, stats: Stats)
    requires forall j :: 0 <= j < |ids| ==> ids[j] < |claimedRows|
    requires RowsServed(claimedRows, ids, Outcomes(w, claimedRows, ids, weather, maxRetries), rows, ServedCount(stats))
    requires CountsMatch(rows, ids, stats, ServedCount(stats))
    requires ServedCount(stats) < |ids| ==> Outcomes(w, claimedRows, ids, weather, maxRetries)(ServedCount(stats)).None?
    requires forall k :: weather(k).failureWriteOk
    ensures stats.claimed == stats.completed + stats.failedRequiresReview + stats.retryPending == |ids|
    ensures forall k :: 0 <= k < |ids| ==> rows[ids[k]].status in {Completed, FailedRequiresReview, RetryPending}
    ensures stats.completed == WithStatus(rows, ids, Completed)
  {
    if ServedCount(stats) < |ids| {
      OutcomeStatus(w, claimedRows, ids, weather, maxRetries, ServedCount(stats));
    }
    assert ids[..|ids|] == ids;
    forall k | 0 <= k < |ids| ensures rows[ids[k]].status in {Completed, FailedRequiresReview, RetryPending} {
      OutcomeStatus(w, claimedRows, ids, weather, maxRetries, k);
    }
  }

  /** Settling one more claimed row adds it to its counter and leaves the earlier ones alone. */
  lemma OneMore(rows: seq<Row>, rows': seq<Row>, ids: seq<nat>, k: nat)
    requires k < |ids| && Increasing(ids) && |rows| == |rows'|
    requires forall j :: 0 <= j < |ids| ==> ids[j] < |rows|
    requires forall i :: 0 <= i < |rows| && i != ids[k] ==> rows[i] == rows'[i]
    ensures forall st :: WithStatus(rows', ids[..k + 1], st) == WithStatus(rows, ids[..k], st) + if rows'[ids[k]].status == st then 1 else 0
  {
    forall st ensures WithStatus(rows', ids[..k + 1], st) == WithStatus(rows, ids[..k], st) + if rows'[ids[k]].status == st then 1 else 0 {
      assert ids[..k + 1][..k] == ids[..k];
      WithStatusLocal(rows, rows', ids[..k], st);
    }
  }
}

/**
 The lifecycle routes run one after the other without failures: database and ledger statuses agree throughout, and
 activation supersedes the earlier releases of the same software.
 */
module Releases {
  import opened Prelude
  import opened LedgerModel
  import O = OutboxModel

  datatype Doc = Doc(id: string, name: string, status: Lifecycle)

  datatype Refusal = NoSuchDocument | WrongState | PolicyFailed | BlockedByDecision | LedgerRefused(error: Error)

  type Answer = Result<(), Refusal>

  /** The decisions that the approve and activate routes refuse, after the legacy status has been normalised. */
  predicate DatabaseBlocks(latest: Option<Trust>) {
    latest.Some? && (latest.value.Refused? || latest.value.Untrusted? || latest.value.ReviewRequired? || latest.value.ConditionallyAccepted?)
  }

  /** No decision against the release on the ledger; a release without any decision passes. */
  ghost predicate LedgerLetsPass(w: World, id: string) {
    id in w.sboms ==> w.sboms[id].trust.status !in {Refused, Untrusted, ReviewRequired, Unevaluated, ConditionallyAccepted}
  }

  /** The list of the supersede loop is cut off here. */
  const ListLimit := 500

  predicate IsPrevious(d: Doc, id: string, name: string) {
    d.id != id && d.name == name && d.status.Active?
  }

  /** The documents, newest first, after the supersede loop of an activation. */
  function AfterSweep(docs: seq<Doc>, id: string, name: string, upTo: nat): seq<Doc> {
    seq(|docs|, i requires 0 <= i < |docs| => if i < upTo && IsPrevious(docs[i], id, name) then docs[i].(status := Superseded) else docs[i])
  }

  ghost predicate OneActive(docs: seq<Doc>) {
    forall i, j :: 0 <= i < j < |docs| && docs[i].name == docs[j].name && docs[i].status.Active? ==> !docs[j].status.Active?
  }

  ghost predicate DistinctIds(docs: seq<Doc>) {
    forall i, j :: 0 <= i < j < |docs| ==> docs[i].id != docs[j].id
  }

  /** Database and ledger agree on every document. */
  ghost predicate Agree(docs: seq<Doc>, w: World) {
    && DistinctIds(docs)
    && forall i :: 0 <= i < |docs| ==> docs[i].id != "" && docs[i].id in w.sboms && w.sboms[docs[i].id].status == docs[i].status
  }

  /** After an activation no earlier release of the software stays ACTIVE, except exactly those the list did not reach. */
  lemma SurvivorsIff(docs: seq<Doc>, k: nat, i: nat)
    requires DistinctIds(docs) && k < |docs| && i < |docs| && i != k
    ensures var activated := docs[k := docs[k].(status := Active)];
            var docs' := AfterSweep(activated, docs[k].id, docs[k].name, ListLimit);
            docs[i].name == docs[k].name ==> (docs'[i].status.Active? <==> docs[i].status.Active? && i >= 500)
  {
    assert docs[i].id != docs[k].id;
  }

  lemma SweepIff(docs: seq<Doc>, k: nat, upTo: nat)
    requires DistinctIds(docs) && k < |docs|
    ensures var docs' := AfterSweep(docs, docs[k].id, docs[k].name, upTo);
            && docs'[k] == docs[k]
            && forall i :: 0 <= i < |docs| && i != k ==>
                 docs'[i] == if i < upTo && docs[i].name == docs[k].name && docs[i].status == Active
                               then Doc(docs[i].id, docs[i].name, Superseded) else docs[i]
  {
  }

  /** Hence up to the limit there is at most one ACTIVE release of every software, whichever release is activated. */
  lemma SweepLeavesOneActive(docs: seq<Doc>, k: nat)
    requires DistinctIds(docs) && OneActive(docs) && k < |docs| <= ListLimit
    ensures OneActive(AfterSweep(docs[k := docs[k].(status := Active)], docs[k].id, docs[k].name, ListLimit))
  {
    var docs' := AfterSweep(docs[k := docs[k].(status := Active)], docs[k].id, docs[k].name, ListLimit);
    forall i, j | 0 <= i < j < |docs'| && docs'[i].name == docs'[j].name && docs'[i].status.Active? ensures !docs'[j].status.Active? {
      if i != k {
        SurvivorsIff(docs, k, i);
      }
      if j != k {
        SurvivorsIff(docs, k, j);
      }
    }
  }

  /** Beyond the limit the property fails: an older ACTIVE release survives the activation of a newer one. */
  lemma OldReleaseSurvives(docs: seq<Doc>, k: nat, older: nat)
    requires DistinctIds(docs) && k < |docs| && ListLimit <= older < |docs| && k != older
    requires docs[older].name == docs[k].name && docs[older].status.Active?
    ensures !OneActive(AfterSweep(docs[k := docs[k].(status := Active)], docs[k].id, docs[k].name, ListLimit))
  {
    var docs' := AfterSweep(docs[k := docs[k].(status := Active)], docs[k].id, docs[k].name, ListLimit);
    SurvivorsIff(docs, k, older);
    assert docs'[k].status.Active? && docs'[older].status.Active? && docs'[k].name == docs'[older].name;
  }

  lemma AgreeAfterMove(docs: seq<Doc>, w: World, ctx: Context, m: Move, k: nat)
    requires Agree(docs, w) && k < |docs| && MoveReply(w, ctx, m, docs[k].id).Ok?
    ensures Agree(docs[k := docs[k].(status := Target(m))], Apply(w, ctx, Transition(m, docs[k].id)))
  {
    var docs' := docs[k := docs[k].(status := Target(m))];
    var w' := Apply(w, ctx, Transition(m, docs[k].id));
    forall i | 0 <= i < |docs'| ensures docs'[i].id in w'.sboms && w'.sboms[docs'[i].id].status == docs'[i].status {
      if i != k {
        assert docs[i].id != docs[k].id;
      }
    }
  }

  /** Decisions and evidence recorded meanwhile, by the outbox worker or anyone else, do not disturb the agreement. */
  lemma AgreeAfterRecording(docs: seq<Doc>, w: World, ctx: Context, tx: Tx)
    requires Agree(docs, w) && (tx.Decide? || tx.Attest?)
    ensures Agree(docs, Apply(w, ctx, tx))
  {
    if tx.Decide? && DecideReply(w, ctx, tx.decision).Ok? && DecisionKey(tx.decision) !in w.decisions {
      assert Apply(w, ctx, tx).sboms == w.sboms[tx.decision.sbomID := Decided(w.sboms[tx.decision.sbomID], ctx, tx.decision)];
    }
  }

  /** Nor does a whole batch of them, whatever its records, its fate and its order. */
  lemma {:induction false} AgreeAfterBatch(docs: seq<Doc>, w: World, rows: seq<O.Row>, ids: seq<nat>, weather: nat -> O.Weather, k: nat)
    requires Agree(docs, w) && k <= |ids| && forall j :: 0 <= j < |ids| ==> ids[j] < |rows|
    ensures Agree(docs, O.WorldAfter(w, rows, ids, weather, k))
  {
    if k > 0 {
      AgreeAfterBatch(docs, w, rows, ids, weather, k - 1);
      var r := rows[ids[k - 1]];
      AgreeAfterRecording(docs, O.WorldAfter(w, rows, ids, weather, k - 1), weather(k - 1).ctx, O.TxOf(r.action, r.payload));
    }
  }

  lemma NotNewlyActive(docs: seq<Doc>, k: nat, status: Lifecycle)
    requires OneActive(docs) && k < |docs| && !status.Active?
    ensures OneActive(docs[k := docs[k].(status := status)])
  {
  }

  /** What a batch means for the ledger: the first k of its records have been attempted. */
  method RunBatch(store: O.OutboxStore, ledger: Ledger, batchSize: nat, maxRetries: int, now: int, weather: nat -> O.Weather)
    returns (ghost claimedRows: seq<O.Row>, ghost ids: seq<nat>, ghost k: nat)
    modifies store, ledger
    ensures k <= |ids| && forall j :: 0 <= j < |ids| ==> ids[j] < |claimedRows|
    ensures ledger.State() == O.WorldAfter(old(ledger.State()), claimedRows, ids, weather, k)
  {
    var stats, claimed, threw, rows := O.ProcessOutboxBatch(store, ledger, batchSize, maxRetries, now, weather);
    claimedRows, ids, k := rows, claimed, O.ServedCount(stats) + if threw then 1 else 0;
  }

  class Registry {
    var docs: seq<Doc>
    const ledger: Ledger

    constructor (ledger: Ledger)
      ensures this.ledger == ledger && docs == []
    {
      this.ledger := ledger;
      docs := [];
    }

    /** The row of the SBOM, or |docs|. */
    method FindDocument(id: string) returns (k: nat)
      ensures k <= |docs|
      ensures k < |docs| ==> docs[k].id == id
      ensures k == |docs| ==> forall i :: 0 <= i < |docs| ==> docs[i].id != id
    {
      k := 0;
      while k < |docs| && docs[k].id != id
        invariant k <= |docs| && forall i :: 0 <= i < k ==> docs[i].id != id
      {
        k := k + 1;
      }
    }

    /** A submission: insert, submit, delete again if the ledger refuses. */
    method Submit(id: string, origin: Origin, ctx: Context) returns (answer: Answer)
      requires Agree(docs, ledger.State()) && OneActive(docs)
      modifies this, ledger
      ensures Agree(docs, ledger.State()) && OneActive(docs)
      ensures ledger.State() == old(ledger.State()) || ledger.State() == Apply(old(ledger.State()), ctx, Tx.Submit(id, origin))
      ensures docs == if answer.Ok? then [Doc(id, origin.softwareName, Registered)] + old(docs) else old(docs)
      ensures answer.Ok? <==> (forall k :: 0 <= k < |old(docs)| ==> old(docs)[k].id != id) && SubmitReply(old(ledger.State()), ctx, id, origin).Ok?
    {
      var k := FindDocument(id);
      if k < |docs| {
        return Err(WrongState);
      }
      ghost var before, w := docs, ledger.State();
      docs := [Doc(id, origin.softwareName, Registered)] + docs;
      var reply := ledger.SubmitSBOM(ctx, id, origin);
      if reply.Err? {
        docs := docs[1..];
        return Err(LedgerRefused(reply.error));
      }
      docs := docs[0 := docs[0].(status := Registered)];
      forall i | 0 <= i < |before| ensures docs[i + 1] == before[i] && before[i].id in w.sboms {
      }
      return Ok(());
    }

    method ReviewPending(id: string, ctx: Context) returns (answer: Answer)
      requires Agree(docs, ledger.State()) && OneActive(docs)
      modifies this, ledger
      ensures Agree(docs, ledger.State()) && OneActive(docs)
      ensures answer.Err? ==> docs == old(docs) && ledger.State() == old(ledger.State())
      ensures answer.Ok? ==> exists k :: 0 <= k < |old(docs)| && old(docs)[k] == Doc(id, old(docs)[k].name, Registered)
                               && docs == old(docs)[k := Doc(id, old(docs)[k].name, Lifecycle.ReviewPending)]
      ensures answer.Ok? <==> ctx.identity.Some? && exists k :: 0 <= k < |old(docs)| && old(docs)[k].id == id && old(docs)[k].status == Registered
    {
      var k := FindDocument(id);
      if k == |docs| {
        return Err(NoSuchDocument);
      }
      if docs[k].status != Registered {
        return Err(WrongState);
      }
      ghost var w := ledger.State();
      var reply := ledger.MoveToReviewPending(ctx, id);
      if reply.Err? {
        return Err(LedgerRefused(reply.error));
      }
      AgreeAfterMove(docs, w, ctx, ToReviewPending, k);
      NotNewlyActive(docs, k, Lifecycle.ReviewPending);
      docs := docs[k := docs[k].(status := Lifecycle.ReviewPending)];
      return Ok(());
    }

    /** Two stages: the review, then compliance or rejection by integrity and policy. */
    method SecurityReviewed(id: string, ctx: Context, integrityOk: bool, policyPasses: bool) returns (answer: Answer)
      requires Agree(docs, ledger.State()) && OneActive(docs)
      modifies this, ledger
      ensures Agree(docs, ledger.State()) && OneActive(docs)
      ensures answer.Err? ==> docs == old(docs) && ledger.State() == old(ledger.State())
      ensures answer.Ok? ==> exists k :: 0 <= k < |old(docs)| && old(docs)[k] == Doc(id, old(docs)[k].name, Lifecycle.ReviewPending)
                               && docs == old(docs)[k := Doc(id, old(docs)[k].name, if integrityOk && policyPasses then Compliant else Rejected)]
      ensures answer.Ok? <==> ctx.identity.Some? && exists k :: 0 <= k < |old(docs)| && old(docs)[k].id == id && old(docs)[k].status == Lifecycle.ReviewPending
    {
      var k := FindDocument(id);
      if k == |docs| {
        return Err(NoSuchDocument);
      }
      if docs[k].status != Lifecycle.ReviewPending {
        return Err(WrongState);
      }
      ghost var w := ledger.State();
      var reply := ledger.MoveToSecurityReviewed(ctx, id);
      if reply.Err? {
        return Err(LedgerRefused(reply.error));
      }
      AgreeAfterMove(docs, w, ctx, ToSecurityReviewed, k);
      NotNewlyActive(docs, k, Lifecycle.SecurityReviewed);
      docs := docs[k := docs[k].(status := Lifecycle.SecurityReviewed)];
      JudgeCompliance(k, ctx, integrityOk && policyPasses);
      assert docs == old(docs)[k := docs[k]];
      return Ok(());
    }

    method JudgeCompliance(k: nat, ctx: Context, passed: bool)
      requires k < |docs| && docs[k].status == Lifecycle.SecurityReviewed && docs[k].id != "" && ctx.identity.Some?
      requires Agree(docs, ledger.State()) && OneActive(docs)
      modifies this, ledger
      ensures Agree(docs, ledger.State()) && OneActive(docs)
      ensures docs == old(docs)[k := old(docs)[k].(status := if passed then Compliant else Rejected)]
    {
      ghost var w := ledger.State();
      if passed {
        var reply := ledger.MarkCompliant(ctx, docs[k].id);
        AgreeAfterMove(docs, w, ctx, Move.MarkCompliant, k);
        NotNewlyActive(docs, k, Compliant);
        docs := docs[k := docs[k].(status := Compliant)];
      } else {
        var reply := ledger.RejectSBOM(ctx, docs[k].id);
        AgreeAfterMove(docs, w, ctx, Move.Reject, k);
        NotNewlyActive(docs, k, Rejected);
        docs := docs[k := docs[k].(status := Rejected)];
      }
    }

    method Approve(id: string, ctx: Context, policyFails: bool, latest: Option<Trust>) returns (answer: Answer)
      requires Agree(docs, ledger.State()) && OneActive(docs)
      modifies this, ledger
      ensures Agree(docs, ledger.State()) && OneActive(docs)
      ensures answer.Err? ==> docs == old(docs) && ledger.State() == old(ledger.State())
      ensures answer.Ok? ==> !policyFails && !DatabaseBlocks(latest)
      ensures answer.Ok? ==> exists k :: 0 <= k < |old(docs)| && old(docs)[k] == Doc(id, old(docs)[k].name, Compliant)
                               && docs == old(docs)[k := Doc(id, old(docs)[k].name, Approved)]
      ensures answer.Ok? <==>
                && ctx.identity.Some? && !policyFails
                && (latest.None? || latest.value !in {Refused, Untrusted, ReviewRequired, ConditionallyAccepted})
                && exists k :: 0 <= k < |old(docs)| && old(docs)[k].id == id && old(docs)[k].status == Compliant && LedgerLetsPass(old(ledger.State()), id)
    {
      var k := FindDocument(id);
      if k == |docs| {
        return Err(NoSuchDocument);
      }
      if docs[k].status != Compliant {
        return Err(WrongState);
      }
      if policyFails {
        return Err(PolicyFailed);
      }
      if DatabaseBlocks(latest) {
        return Err(BlockedByDecision);
      }
      ghost var w := ledger.State();
      var reply := ledger.ApproveSBOM(ctx, id);
      if reply.Err? {
        return Err(LedgerRefused(reply.error));
      }
      AgreeAfterMove(docs, w, ctx, Move.Approve, k);
      NotNewlyActive(docs, k, Approved);
      docs := docs[k := docs[k].(status := Approved)];
      return Ok(());
    }

    /** Activation, then the loop over the newest documents that supersedes earlier releases. */
    method Activate(id: string, ctx: Context, latest: Option<Trust>) returns (answer: Answer, ghost k: nat)
      requires Agree(docs, ledger.State()) && OneActive(docs)
      modifies this, ledger
      ensures Agree(docs, ledger.State())
      ensures answer.Err? ==> docs == old(docs) && ledger.State() == old(ledger.State())
      ensures answer.Ok? ==>
                && !DatabaseBlocks(latest) && k < |old(docs)| && old(docs)[k] == Doc(id, old(docs)[k].name, Approved)
                && docs == AfterSweep(old(docs)[k := Doc(id, old(docs)[k].name, Active)], id, old(docs)[k].name, ListLimit)
      ensures answer.Ok? ==> |docs| == |old(docs)| && docs[k] == Doc(id, old(docs)[k].name, Active)
      ensures answer.Ok? ==> forall i :: 0 <= i < |docs| && i != k ==>
                var d := old(docs)[i];
                docs[i] == if i < 500 && d.name == old(docs)[k].name && d.status == Active then Doc(d.id, d.name, Superseded) else d
      ensures |old(docs)| <= ListLimit ==> OneActive(docs)
      ensures answer.Ok? <==>
                && ctx.identity.Some?
                && (latest.None? || latest.value !in {Refused, Untrusted, ReviewRequired, ConditionallyAccepted})
                && exists k :: 0 <= k < |old(docs)| && old(docs)[k].id == id && old(docs)[k].status == Approved && LedgerLetsPass(old(ledger.State()), id)
    {
      var row := FindDocument(id);
      k := row;
      if row == |docs| {
        return Err(NoSuchDocument), k;
      }
      if docs[row].status != Approved {
        return Err(WrongState), k;
      }
      if DatabaseBlocks(latest) {
        return Err(BlockedByDecision), k;
      }
      ghost var w := ledger.State();
      var reply := ledger.ActivateSBOM(ctx, id);
      if reply.Err? {
        return Err(LedgerRefused(reply.error)), k;
      }
      AgreeAfterMove(docs, w, ctx, Move.Activate, row);
      if |docs| <= ListLimit {
        SweepLeavesOneActive(docs, row);
      }
      var record := docs[row];
      docs := docs[row := record.(status := Active)];
      ghost var activated := docs;
      SupersedePrevious(id, record.name, ctx);
      SweepIff(activated, row, ListLimit);
      return Ok(()), k;
    }

    method SupersedePrevious(id: string, name: string, ctx: Context)
      requires Agree(docs, ledger.State()) && ctx.identity.Some?
      modifies this, ledger
      ensures docs == AfterSweep(old(docs), id, name, ListLimit)
      ensures Agree(docs, ledger.State())
    {
      var all := docs[..Min(|docs|, ListLimit)];
      var i := 0;
      assert AfterSweep(docs, id, name, 0) == docs;
      while i < |all|
        invariant 0 <= i <= |all| == Min(|old(docs)|, ListLimit)
        invariant all == old(docs)[..|all|]
        invariant docs == AfterSweep(old(docs), id, name, i)
        invariant Agree(docs, ledger.State())
      {
        var prev := all[i];
        assert docs[i] == old(docs)[i] == prev;
        if prev.id != id && prev.name == name && prev.status.Active? {
          ghost var w := ledger.State();
          var reply := ledger.SupersedeSBOM(ctx, prev.id);
          AgreeAfterMove(docs, w, ctx, Move.Supersede, i);
          docs := docs[i := docs[i].(status := Superseded)];
        }
        assert docs == AfterSweep(old(docs), id, name, i + 1);
        i := i + 1;
      }
      assert docs == AfterSweep(old(docs), id, name, ListLimit);
    }

    /** Between two requests the outbox worker may run: agreement and the one active release survive it. */
    method LetOutboxWorkerRun(store: O.OutboxStore, batchSize: nat, maxRetries: int, now: int, weather: nat -> O.Weather)
      requires Agree(docs, ledger.State()) && OneActive(docs)
      modifies store, ledger
      ensures docs == old(docs) && Agree(docs, ledger.State()) && OneActive(docs)
    {
      ghost var w := ledger.State();
      ghost var claimedRows, ids, k := RunBatch(store, ledger, batchSize, maxRetries, now, weather);
      AgreeAfterBatch(docs, w, claimedRows, ids, weather, k);
    }

    method Supersede(id: string, ctx: Context) returns (answer: Answer)
      requires Agree(docs, ledger.State()) && OneActive(docs)
      modifies this, ledger
      ensures Agree(docs, ledger.State()) && OneActive(docs)
      ensures answer.Err? ==> docs == old(docs) && ledger.State() == old(ledger.State())
      ensures answer.Ok? ==> exists k :: 0 <= k < |old(docs)| && old(docs)[k].id == id && old(docs)[k].status in {Approved, Active}
                               && docs == old(docs)[k := old(docs)[k].(status := Superseded)]
      ensures answer.Ok? <==> ctx.identity.Some? && exists k :: 0 <= k < |old(docs)| && old(docs)[k].id == id && old(docs)[k].status in {Approved, Active}
    {
      var k := FindDocument(id);
      if k == |docs| {
        return Err(NoSuchDocument);
      }
      ghost var w := ledger.State();
      var reply := ledger.SupersedeSBOM(ctx, id);
      if reply.Err? {
        return Err(LedgerRefused(reply.error));
      }
      AgreeAfterMove(docs, w, ctx, Move.Supersede, k);
      NotNewlyActive(docs, k, Superseded);
      docs := docs[k := docs[k].(status := Superseded)];
      return Ok(());
    }

    method Reject(id: string, ctx: Context) returns (answer: Answer)
      requires Agree(docs, ledger.State()) && OneActive(docs)
      modifies this, ledger
      ensures Agree(docs, ledger.State()) && OneActive(docs)
      ensures answer.Err? ==> docs == old(docs) && ledger.State() == old(ledger.State())
      ensures answer.Ok? ==> exists k :: 0 <= k < |old(docs)| && old(docs)[k].id == id && !(old(docs)[k].status in {Superseded, Rejected})
                               && docs == old(docs)[k := old(docs)[k].(status := Rejected)]
      ensures answer.Ok? <==> ctx.identity.Some? && exists k :: 0 <= k < |old(docs)| && old(docs)[k].id == id && old(docs)[k].status !in {Superseded, Rejected}
    {
      var k := FindDocument(id);
      if k == |docs| {
        return Err(NoSuchDocument);
      }
      if docs[k].status == Superseded || docs[k].status == Rejected {
        return Err(WrongState);
      }
      ghost var w := ledger.State();
      var reply := ledger.RejectSBOM(ctx, id);
      if reply.Err? {
        return Err(LedgerRefused(reply.error));
      }
      AgreeAfterMove(docs, w, ctx, Move.Reject, k);
      NotNewlyActive(docs, k, Rejected);
      docs := docs[k := docs[k].(status := Rejected)];
      return Ok(());
    }
  }
}

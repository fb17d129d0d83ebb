/**
 When the status cache is level with the ledger: always between orderly requests on an SBOM, and not when requests on it
 overlap, even if nothing fails.
 */
module CacheLevels {
  import opened Prelude
  import opened LedgerModel
  import opened Cache
  import R = LedgerRuns

  /** The request is under way on the SBOM. One that sweeps earlier releases is done with its own. */
  predicate Busy(t: Task, id: string) {
    match t
    case Submitting(i, _) => i == id
    case Finalizing(i, _) => i == id
    case Deleting(i, _) => i == id
    case Checked(_, i) => i == id
    case Writing(i, _) => i == id
    case Reviewed(i) => i == id
    case Sweeping(_, _) => false
    case Done => false
  }

  ghost predicate Idle(s: Sys, id: string) {
    forall k :: 0 <= k < |s.tasks| ==> !Busy(s.tasks[k], id)
  }

  /** Database and ledger know the SBOM or do not, and if so with the same status. */
  predicate Level(s: Sys, id: string) {
    && (id in s.docs <==> id in Cache.World(s).sboms)
    && (id in s.docs && id in Cache.World(s).sboms ==> s.docs[id].status == Cache.World(s).sboms[id].status)
  }

  /**
   As far as the SBOM is concerned: a request begins only when none is under way, none dies, every reply arrives, and
   nobody moves the SBOM on the ledger past the routes.
   */
  ghost predicate Orderly(s: Sys, st: Step, id: string) {
    match st
    case Insert(i, _) => i == id ==> Idle(s, id)
    case Read(_, i) => i == id ==> Idle(s, id)
    case Sweep(_, other) => other == id ==> Idle(s, id)
    case SubmitTx(k, _, _, reported) => k < |s.tasks| && Busy(s.tasks[k], id) ==> reported
    case Transact(k, _, reported) => k < |s.tasks| && Busy(s.tasks[k], id) ==> reported
    case Crash(k) => k < |s.tasks| ==> !Busy(s.tasks[k], id)
    case Foreign(call) => !Touches(call.tx, id)
    case _ => true
  }

  predicate Touches(tx: Tx, id: string) {
    (tx.Submit? || tx.Transition?) && tx.sbomID == id
  }

  /** What holds while the request is at the given point. */
  predicate Fits(s: Sys, t: Task, id: string) {
    match t
    case Submitting(_, row) => id in s.docs && s.docs[id].row == row && s.docs[id].status.Registered? && id !in Cache.World(s).sboms
    case Deleting(_, row) => id in s.docs && s.docs[id].row == row && s.docs[id].status.Registered? && id !in Cache.World(s).sboms
    case Finalizing(_, row) => id in s.docs && s.docs[id].row == row && id in Cache.World(s).sboms && Cache.World(s).sboms[id].status.Registered?
    case Writing(_, status) => id in s.docs && id in Cache.World(s).sboms && Cache.World(s).sboms[id].status == status
    case _ => Level(s, id)
  }

  /** At most one request is under way, the state fits it, and without one the cache is level. */
  ghost predicate Serial(s: Sys, id: string) {
    && (forall j, k :: 0 <= j < k < |s.tasks| && Busy(s.tasks[j], id) ==> !Busy(s.tasks[k], id))
    && (forall k :: 0 <= k < |s.tasks| && Busy(s.tasks[k], id) ==> Fits(s, s.tasks[k], id))
    && (Idle(s, id) ==> Level(s, id))
  }

  /** Everything the database and the ledger say about the status of the SBOM. */
  predicate SameView(s: Sys, s': Sys, id: string) {
    && (id in s'.docs <==> id in s.docs) && (id in s.docs && id in s'.docs ==> s'.docs[id] == s.docs[id])
    && (id in Cache.World(s').sboms <==> id in Cache.World(s).sboms)
    && (id in Cache.World(s).sboms && id in Cache.World(s').sboms ==> Cache.World(s').sboms[id].status == Cache.World(s).sboms[id].status)
  }

  lemma StatusUntouched(w: World, c: R.Call, id: string)
    requires !Touches(c.tx, id)
    ensures var w' := Apply(w, c.ctx, c.tx);
            && (id in w'.sboms <==> id in w.sboms)
            && (id in w.sboms && id in w'.sboms ==> w'.sboms[id].status == w.sboms[id].status)
  {
  }

  /** A step that leaves the SBOM's requests, its document and its record alone. */
  lemma ElsewhereIsSerial(s: Sys, s': Sys, id: string)
    requires Serial(s, id) && SameView(s, s', id) && |s'.tasks| >= |s.tasks|
    requires forall k :: 0 <= k < |s.tasks| ==>
               s'.tasks[k] == s.tasks[k] || (!Busy(s.tasks[k], id) && !Busy(s'.tasks[k], id))
    requires forall k :: |s.tasks| <= k < |s'.tasks| ==> !Busy(s'.tasks[k], id)
    ensures Serial(s', id)
  {
    forall k | 0 <= k < |s'.tasks| && Busy(s'.tasks[k], id) ensures k < |s.tasks| && Fits(s', s'.tasks[k], id) {
      assert Fits(s, s.tasks[k], id);
    }
    if Idle(s', id) {
      forall k | 0 <= k < |s.tasks| ensures !Busy(s.tasks[k], id) {
        assert !Busy(s'.tasks[k], id);
      }
    }
  }

  /** The request under way goes on, or ends. */
  lemma OnwardIsSerial(s: Sys, s': Sys, k: nat, id: string)
    requires Serial(s, id) && k < |s.tasks| && Busy(s.tasks[k], id)
    requires |s'.tasks| == |s.tasks| && s'.tasks == s.tasks[k := s'.tasks[k]]
    requires if Busy(s'.tasks[k], id) then Fits(s', s'.tasks[k], id) else Level(s', id)
    ensures Serial(s', id)
  {
    forall j | 0 <= j < |s.tasks| && j != k ensures !Busy(s'.tasks[j], id) {
      assert s'.tasks[j] == s.tasks[j];
    }
  }

  /** A request begins. */
  lemma BeginningIsSerial(s: Sys, s': Sys, t: Task, id: string)
    requires Idle(s, id) && s'.tasks == s.tasks + [t] && Busy(t, id) && Fits(s', t, id)
    ensures Serial(s', id)
  {
    assert forall j :: 0 <= j < |s.tasks| ==> s'.tasks[j] == s.tasks[j];
    assert s'.tasks[|s.tasks|] == t;
  }

  lemma WorldOfCall(s: Sys, st: Step, c: R.Call)
    requires CallOf(s, st) == [c]
    ensures Cache.World(Next(s, st)) == Apply(Cache.World(s), c.ctx, c.tx)
  {
    WorldStep(s, st);
    OneCall(Cache.World(s), c);
  }

  lemma WorldWithoutCall(s: Sys, st: Step)
    requires CallOf(s, st) == []
    ensures Cache.World(Next(s, st)) == Cache.World(s)
  {
    WorldStep(s, st);
  }

  lemma SubmitIsSerial(s: Sys, k: nat, ctx: Context, origin: Origin, reported: bool, id: string)
    requires Serial(s, id) && Orderly(s, SubmitTx(k, ctx, origin, reported), id) && k < |s.tasks| && s.tasks[k].Submitting?
    ensures Serial(Next(s, SubmitTx(k, ctx, origin, reported)), id)
  {
    var st := SubmitTx(k, ctx, origin, reported);
    var c := R.Call(ctx, Submit(s.tasks[k].id, origin));
    WorldOfCall(s, st, c);
    if s.tasks[k].id == id {
      assert Fits(s, s.tasks[k], id);
      OnwardIsSerial(s, Next(s, st), k, id);
    } else {
      StatusUntouched(Cache.World(s), c, id);
      ElsewhereIsSerial(s, Next(s, st), id);
    }
  }

  lemma TransactIsSerial(s: Sys, k: nat, ctx: Context, reported: bool, id: string)
    requires Serial(s, id) && Orderly(s, Transact(k, ctx, reported), id) && k < |s.tasks| && s.tasks[k].Checked?
    ensures Serial(Next(s, Transact(k, ctx, reported)), id)
  {
    var st := Transact(k, ctx, reported);
    var c := R.Call(ctx, Transition(s.tasks[k].move, s.tasks[k].id));
    WorldOfCall(s, st, c);
    if s.tasks[k].id == id {
      assert Fits(s, s.tasks[k], id);
      OnwardIsSerial(s, Next(s, st), k, id);
    } else {
      StatusUntouched(Cache.World(s), c, id);
      ElsewhereIsSerial(s, Next(s, st), id);
    }
  }

  /** The steps on the database side of a task. */
  lemma DatabaseIsSerial(s: Sys, st: Step, id: string)
    requires Serial(s, id) && (st.Finalize? || st.Delete? || st.Write? || st.Judge?) && st.k < |s.tasks|
    ensures Serial(Next(s, st), id)
  {
    var s' := Next(s, st);
    WorldWithoutCall(s, st);
    if Busy(s.tasks[st.k], id) {
      assert Fits(s, s.tasks[st.k], id);
      OnwardIsSerial(s, s', st.k, id);
    } else {
      ElsewhereIsSerial(s, s', id);
    }
  }

  lemma BeginIsSerial(s: Sys, st: Step, id: string)
    requires Serial(s, id) && Orderly(s, st, id) && (st.Insert? || st.Read? || st.Sweep?)
    ensures Serial(Next(s, st), id)
  {
    var s' := Next(s, st);
    WorldWithoutCall(s, st);
    if s' == s {
    } else if Busy(s'.tasks[|s.tasks|], id) {
      BeginningIsSerial(s, s', s'.tasks[|s.tasks|], id);
    } else {
      ElsewhereIsSerial(s, s', id);
    }
  }

  lemma SerialStep(s: Sys, st: Step, id: string)
    requires Serial(s, id) && Orderly(s, st, id)
    ensures Serial(Next(s, st), id)
  {
    match st
    case SubmitTx(k, ctx, origin, reported) =>
      if k < |s.tasks| && s.tasks[k].Submitting? {
        SubmitIsSerial(s, k, ctx, origin, reported, id);
      }
    case Transact(k, ctx, reported) =>
      if k < |s.tasks| && s.tasks[k].Checked? {
        TransactIsSerial(s, k, ctx, reported, id);
      }
    case Crash(k) =>
      WorldWithoutCall(s, st);
      ElsewhereIsSerial(s, Next(s, st), id);
    case Foreign(call) =>
      WorldOfCall(s, st, call);
      StatusUntouched(Cache.World(s), call, id);
      ElsewhereIsSerial(s, Next(s, st), id);
    case Insert(_, _) => BeginIsSerial(s, st, id);
    case Read(_, _) => BeginIsSerial(s, st, id);
    case Sweep(_, _) => BeginIsSerial(s, st, id);
    case Finalize(k) => if k < |s.tasks| { DatabaseIsSerial(s, st, id); }
    case Delete(k) => if k < |s.tasks| { DatabaseIsSerial(s, st, id); }
    case Write(k) => if k < |s.tasks| { DatabaseIsSerial(s, st, id); }
    case Judge(k, _) => if k < |s.tasks| { DatabaseIsSerial(s, st, id); }
  }

  ghost predicate OrderlyRun(steps: seq<Step>, id: string) {
    forall j :: 0 <= j < |steps| ==> Orderly(Run(Start, steps[..j]), steps[j], id)
  }

  lemma {:induction false} RunIsSerial(steps: seq<Step>, id: string)
    requires OrderlyRun(steps, id)
    ensures Serial(Run(Start, steps), id)
  {
    if steps != [] {
      var n := |steps| - 1;
      forall j | 0 <= j < n ensures Orderly(Run(Start, steps[..n][..j]), steps[..n][j], id) {
        assert steps[..n][..j] == steps[..j];
      }
      RunIsSerial(steps[..n], id);
      assert Orderly(Run(Start, steps[..n]), steps[n], id);
      SerialStep(Run(Start, steps[..n]), steps[n], id);
    }
  }

  /**
   When the requests on an SBOM came one after the other, none of them died and every reply arrived, then between them
   database and ledger agree on it, whatever happened to other SBOMs meanwhile.
   */
  lemma LevelBetweenOrderlyRequests(steps: seq<Step>, id: string)
    requires OrderlyRun(steps, id) && Idle(Run(Start, steps), id)
    ensures Level(Run(Start, steps), id)
  {
    RunIsSerial(steps, id);
  }

  /** Finalizing the own document leaves it level exactly when the ledger has not moved on from REGISTERED. */
  lemma FinalizeKeepsLevelIff(s: Sys, k: nat)
    requires k < |s.tasks| && s.tasks[k].Finalizing?
    requires var id := s.tasks[k].id; id in s.docs && s.docs[id].row == s.tasks[k].row && id in Cache.World(s).sboms
    ensures Level(Next(s, Finalize(k)), s.tasks[k].id) <==> Cache.World(s).sboms[s.tasks[k].id].status.Registered?
  {
    WorldWithoutCall(s, Finalize(k));
  }

  // ---------------------------------------------------------------- overlapping requests

  /** Two requests read, both transactions succeed and report it, the rejection writes first. */
  function Overlap(s: Sys, m: Move, id: string, ctx: Context): Sys {
    var n := |s.tasks|;
    var s2 := Next(Next(s, Read(m, id)), Read(Reject, id));
    var s4 := Next(Next(s2, Transact(n, ctx, true)), Transact(n + 1, ctx, true));
    Next(Next(s4, Write(n + 1)), Write(n))
  }

  /**
   A move and a rejection that overlap leave the move's status cached for an SBOM that the ledger has rejected, ACTIVE for
   instance, without a crash or a lost reply.
   */
  lemma OverlapLeavesTheCacheStale(s: Sys, m: Move, id: string, ctx: Context)
    requires Level(s, id) && id in s.docs && RouteAllows(m, s.docs[id].status) && !m.Reject? && !m.Supersede?
    requires ReplyTo(Cache.World(s), ctx, Transition(m, id)).Ok?
    ensures var s' := Overlap(s, m, id, ctx);
            && id in s'.docs && s'.docs[id].status == Target(m)
            && id in Cache.World(s').sboms && Cache.World(s').sboms[id].status == Rejected
            && s'.tasks == s.tasks + [AfterWrite(s.docs, id, Target(m)), Done]
  {
    var s2 := BothRead(s, m, id);
    var s4 := BothTransact(s2, s.tasks, m, id, ctx);
    var s6 := BothWrite(s4, s.tasks, m, id);
  }

  lemma BothRead(s: Sys, m: Move, id: string) returns (s2: Sys)
    requires id in s.docs && RouteAllows(m, s.docs[id].status) && !m.Reject? && !m.Supersede?
    ensures s2 == Next(Next(s, Read(m, id)), Read(Reject, id))
    ensures s2.tasks == s.tasks + [Checked(m, id), Checked(Reject, id)]
    ensures s2.docs == s.docs && Cache.World(s2) == Cache.World(s)
  {
    var s1 := Next(s, Read(m, id));
    s2 := Next(s1, Read(Reject, id));
    WorldWithoutCall(s, Read(m, id));
    WorldWithoutCall(s1, Read(Reject, id));
    assert s.tasks + [Checked(m, id)] + [Checked(Reject, id)] == s.tasks + [Checked(m, id), Checked(Reject, id)];
  }

  lemma BothTransact(s2: Sys, base: seq<Task>, m: Move, id: string, ctx: Context) returns (s4: Sys)
    requires s2.tasks == base + [Checked(m, id), Checked(Reject, id)] && !m.Reject? && !m.Supersede?
    requires ReplyTo(Cache.World(s2), ctx, Transition(m, id)).Ok?
    ensures s4 == Next(Next(s2, Transact(|base|, ctx, true)), Transact(|base| + 1, ctx, true))
    ensures s4.tasks == base + [Writing(id, Target(m)), Writing(id, Rejected)] && s4.docs == s2.docs
    ensures id in Cache.World(s4).sboms && Cache.World(s4).sboms[id].status == Rejected
  {
    var n := |base|;
    assert s2.tasks[n] == Checked(m, id) && s2.tasks[n + 1] == Checked(Reject, id);
    var s3 := OneTransacts(s2, n, m, id, ctx);
    assert s3.tasks[n + 1] == Checked(Reject, id);
    s4 := OneTransacts(s3, n + 1, Reject, id, ctx);
    assert s4.tasks == base + [Writing(id, Target(m)), Writing(id, Rejected)];
  }

  lemma OneTransacts(s: Sys, k: nat, m: Move, id: string, ctx: Context) returns (s': Sys)
    requires k < |s.tasks| && s.tasks[k] == Checked(m, id) && ReplyTo(Cache.World(s), ctx, Transition(m, id)).Ok?
    ensures s' == Next(s, Transact(k, ctx, true))
    ensures s'.tasks == s.tasks[k := Writing(id, Target(m))] && s'.docs == s.docs
    ensures id in Cache.World(s').sboms && Cache.World(s').sboms[id].status == Target(m)
    ensures !m.Reject? && !m.Supersede? ==> ReplyTo(Cache.World(s'), ctx, Transition(Reject, id)).Ok?
  {
    s' := Next(s, Transact(k, ctx, true));
    WorldOfCall(s, Transact(k, ctx, true), R.Call(ctx, Transition(m, id)));
  }

  lemma BothWrite(s4: Sys, base: seq<Task>, m: Move, id: string) returns (s6: Sys)
    requires s4.tasks == base + [Writing(id, Target(m)), Writing(id, Rejected)] && id in s4.docs
    ensures s6 == Next(Next(s4, Write(|base| + 1)), Write(|base|))
    ensures s6.tasks == base + [AfterWrite(s4.docs, id, Target(m)), Done]
    ensures id in s6.docs && s6.docs[id].status == Target(m) && Cache.World(s6) == Cache.World(s4)
  {
    var n := |base|;
    assert s4.tasks[n + 1] == Writing(id, Rejected) && s4.tasks[n] == Writing(id, Target(m));
    var s5 := Next(s4, Write(n + 1));
    WorldWithoutCall(s4, Write(n + 1));
    assert s5.tasks == base + [Writing(id, Target(m)), Done] && s5.docs == s4.docs[id := s4.docs[id].(status := Rejected)];
    s6 := Next(s5, Write(n));
    WorldWithoutCall(s5, Write(n));
    assert AfterWrite(s5.docs, id, Target(m)) == AfterWrite(s4.docs, id, Target(m));
    assert s6.tasks == base + [AfterWrite(s4.docs, id, Target(m)), Done];
  }

  lemma RunSnoc(s: Sys, steps: seq<Step>, st: Step)
    ensures Run(s, steps + [st]) == Next(Run(s, steps), st)
  {
    assert (steps + [st])[..|steps|] == steps;
  }

  lemma {:induction false} RunAppend(s: Sys, a: seq<Step>, b: seq<Step>)
    ensures Run(s, a + b) == Run(Run(s, a), b)
  {
    if b == [] {
      assert a + b == a;
    } else {
      ConcatSnoc(a, b);
      RunAppend(s, a, b[..|b| - 1]);
      RunSnoc(s, a + b[..|b| - 1], b[|b| - 1]);
    }
  }

  lemma RunOfThree(s: Sys, a: Step, b: Step, c: Step)
    ensures Run(s, [a, b, c]) == Next(Next(Next(s, a), b), c)
  {
    assert [a, b, c][..2] == [a, b] && [a, b][..1] == [a] && [a][..0] == [];
    assert Run(s, [a]) == Next(s, a);
    assert Run(s, [a, b]) == Next(Run(s, [a]), b);
  }

  const Submission := [Insert("s", "app"), SubmitTx(0, R.Vendor, R.Sample, true), Finalize(0)]
  const BothReading := [Read(ToReviewPending, "s"), Read(Reject, "s"), Transact(1, R.Vendor, true)]
  const BothWriting := [Transact(2, R.Vendor, true), Write(2), Write(1)]

  lemma OverlapSteps(s3: Sys)
    requires s3 == Next(Next(Next(Start, Submission[0]), Submission[1]), Submission[2]) && |s3.tasks| == 1
    ensures Run(Start, (Submission + BothReading) + BothWriting) == Overlap(s3, ToReviewPending, "s", R.Vendor)
  {
    RunAppend(Start, Submission + BothReading, BothWriting);
    RunAppend(Start, Submission, BothReading);
    RunOfThree(Start, Submission[0], Submission[1], Submission[2]);
    RunOfThree(s3, BothReading[0], BothReading[1], BothReading[2]);
    RunOfThree(Run(s3, BothReading), BothWriting[0], BothWriting[1], BothWriting[2]);
  }

  /** From the start: a submission, then a review request and a rejection. Nothing is left to do and the cache is wrong. */
  lemma OverlapRunExists() returns (steps: seq<Step>)
    ensures forall j :: 0 <= j < |steps| ==> !steps[j].Crash? && (steps[j].Transact? || steps[j].SubmitTx? ==> steps[j].reported)
    ensures forall k :: 0 <= k < |Run(Start, steps).tasks| ==> Run(Start, steps).tasks[k].Done?
    ensures var s := Run(Start, steps);
            && "s" in s.docs && s.docs["s"].status == ReviewPending
            && "s" in Cache.World(s).sboms && Cache.World(s).sboms["s"].status == Rejected
  {
    var s3 := SubmittedAndIdle();
    OverlapLeavesTheCacheStale(s3, ToReviewPending, "s", R.Vendor);
    steps := (Submission + BothReading) + BothWriting;
    OverlapSteps(s3);
  }

  lemma SubmittedAndIdle() returns (s3: Sys)
    ensures s3 == Next(Next(Next(Start, Review[0]), Review[1]), Finalize(0))
    ensures s3.tasks == [Done] && s3.docs == map["s" := Doc(0, "app", Registered)] && Level(s3, "s")
    ensures ReplyTo(Cache.World(s3), R.Vendor, Transition(ToReviewPending, "s")).Ok?
  {
    var s2 := SubmissionIsFinalizing();
    s3 := Next(s2, Finalize(0));
    WorldWithoutCall(s2, Finalize(0));
  }
}

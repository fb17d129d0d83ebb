/**
 The Postgres status cache beside the ledger. Requests are broken into their reads, ledger transactions and database
 writes, which interleave freely; any request can die between two of them, and a committed transaction can report an
 error.
 */
module Cache {
  import opened Prelude
  import opened LedgerModel
  import R = LedgerRuns

  datatype Doc = Doc(row: nat, name: string, status: Lifecycle)

  /** What a request is about to do. */
  datatype Task =
    | Submitting(id: string, row: nat)
    | Finalizing(id: string, row: nat)
    | Deleting(id: string, row: nat)
    | Checked(move: Move, id: string)
    | Writing(id: string, status: Lifecycle)
    | Reviewed(id: string)
    | Sweeping(id: string, name: string)
    | Done

  datatype Sys = Sys(docs: map<string, Doc>, rows: nat, calls: seq<R.Call>, tasks: seq<Task>)

  const Start := Sys(map[], 0, [], [])

  function World(s: Sys): World {
    R.Reached(s.calls)
  }

  /** The status check a route makes on the cached record; compliance is only marked by the security review itself. */
  predicate RouteAllows(m: Move, cached: Lifecycle) {
    match m
    case ToReviewPending => cached.Registered?
    case ToSecurityReviewed => cached.ReviewPending?
    case MarkCompliant => false
    case Approve => cached.Compliant?
    case Activate => cached.Approved?
    case Supersede => true
    case Reject => !cached.Superseded? && !cached.Rejected?
  }

  /** The routes check what the ledger checks, except that superseding is left to the ledger; a PENDING record and compliance have no route. */
  lemma RouteAllowsIff(m: Move, cached: Lifecycle)
    requires m != Supersede
    ensures RouteAllows(m, cached) <==> Allowed(m, cached) && m != MarkCompliant && !(m == ToReviewPending && cached == Pending)
    ensures RouteAllows(Supersede, cached)
  {
  }

  datatype Step =
    | Insert(id: string, name: string)
    | SubmitTx(k: nat, ctx: Context, origin: Origin, reported: bool)
    | Finalize(k: nat)
    | Delete(k: nat)
    | Read(move: Move, id: string)
    | Transact(k: nat, ctx: Context, reported: bool)
    | Write(k: nat)
    | Judge(k: nat, passed: bool)
    | Sweep(k: nat, other: string)
    | Crash(k: nat)
    | Foreign(call: R.Call)

  function Becomes(s: Sys, k: nat, t: Task): Sys
    requires k < |s.tasks|
  {
    s.(tasks := s.tasks[k := t])
  }

  function Spawned(s: Sys, t: Task): Sys {
    s.(tasks := s.tasks + [t])
  }

  function SetStatus(docs: map<string, Doc>, id: string, status: Lifecycle): map<string, Doc> {
    if id in docs then docs[id := docs[id].(status := status)] else docs
  }

  function AfterWrite(docs: map<string, Doc>, id: string, status: Lifecycle): Task {
    if status.SecurityReviewed? then Reviewed(id)
    else if status.Active? && id in docs then Sweeping(id, docs[id].name)
    else Done
  }

  /** Steps whose guard does not hold leave the state as it is. */
  function Next(s: Sys, st: Step): Sys {
    match st
    case Insert(id, name) =>
      if id in s.docs then s
      else Spawned(s, Submitting(id, s.rows)).(docs := s.docs[id := Doc(s.rows, name, Registered)], rows := s.rows + 1)
    case SubmitTx(k, ctx, origin, reported) =>
      if k < |s.tasks| && s.tasks[k].Submitting? then
        var t := s.tasks[k];
        var tx := Submit(t.id, origin);
        var succeeded := reported && ReplyTo(World(s), ctx, tx).Ok?;
        Becomes(s, k, if succeeded then Finalizing(t.id, t.row) else Deleting(t.id, t.row)).(calls := s.calls + [R.Call(ctx, tx)])
      else s
    case Finalize(k) =>
      if k < |s.tasks| && s.tasks[k].Finalizing? then
        var t := s.tasks[k];
        var own := t.id in s.docs && s.docs[t.id].row == t.row;
        Becomes(s, k, Done).(docs := if own then SetStatus(s.docs, t.id, Registered) else s.docs)
      else s
    case Delete(k) =>
      if k < |s.tasks| && s.tasks[k].Deleting? then
        var t := s.tasks[k];
        var own := t.id in s.docs && s.docs[t.id].row == t.row;
        Becomes(s, k, Done).(docs := if own then s.docs - {t.id} else s.docs)
      else s
    case Read(m, id) => if id in s.docs && RouteAllows(m, s.docs[id].status) then Spawned(s, Checked(m, id)) else s
    case Transact(k, ctx, reported) =>
      if k < |s.tasks| && s.tasks[k].Checked? then
        var t := s.tasks[k];
        var tx := Transition(t.move, t.id);
        var succeeded := reported && ReplyTo(World(s), ctx, tx).Ok?;
        Becomes(s, k, if succeeded then Writing(t.id, Target(t.move)) else Done).(calls := s.calls + [R.Call(ctx, tx)])
      else s
    case Write(k) =>
      if k < |s.tasks| && s.tasks[k].Writing? then
        var t := s.tasks[k];
        Becomes(s, k, AfterWrite(s.docs, t.id, t.status)).(docs := SetStatus(s.docs, t.id, t.status))
      else s
    case Judge(k, passed) =>
      if k < |s.tasks| && s.tasks[k].Reviewed? then Becomes(s, k, Checked(if passed then MarkCompliant else Reject, s.tasks[k].id)) else s
    case Sweep(k, other) =>
      if k < |s.tasks| && s.tasks[k].Sweeping? && other in s.docs && other != s.tasks[k].id
         && s.docs[other].name == s.tasks[k].name && s.docs[other].status.Active? then Spawned(s, Checked(Supersede, other))
      else s
    case Crash(k) => if k < |s.tasks| then Becomes(s, k, Done) else s
    case Foreign(call) => s.(calls := s.calls + [call])
  }

  function Run(s: Sys, steps: seq<Step>): Sys {
    if steps == [] then s else Next(Run(s, steps[..|steps| - 1]), steps[|steps| - 1])
  }

  /** The ledger transaction of a step, if it makes one. */
  function CallOf(s: Sys, st: Step): seq<R.Call> {
    match st
    case SubmitTx(k, ctx, origin, reported) =>
      if k < |s.tasks| && s.tasks[k].Submitting? then [R.Call(ctx, Submit(s.tasks[k].id, origin))] else []
    case Transact(k, ctx, reported) =>
      if k < |s.tasks| && s.tasks[k].Checked? then [R.Call(ctx, Transition(s.tasks[k].move, s.tasks[k].id))] else []
    case Foreign(call) => [call]
    case _ => []
  }

  lemma WorldStep(s: Sys, st: Step)
    ensures World(Next(s, st)) == R.Run(World(s), CallOf(s, st))
    ensures |CallOf(s, st)| <= 1
  {
    R.RunConcat(EmptyWorld, s.calls, CallOf(s, st));
    assert CallOf(s, st) == [] ==> s.calls + [] == s.calls;
    assert Next(s, st).calls == s.calls + CallOf(s, st);
  }

  // ---------------------------------------------------------------- never ahead

  /** The ledger's history of the SBOM contains the status. */
  ghost predicate Seen(w: World, id: string, status: Lifecycle) {
    exists k :: 0 <= k < |Past(w, id)| && Past(w, id)[k].status == status
  }

  lemma HistoryGrows(w: World, c: R.Call, id: string)
    ensures var w' := Apply(w, c.ctx, c.tx);
            && |Past(w', id)| >= |Past(w, id)|
            && forall k :: 0 <= k < |Past(w, id)| ==> Past(w', id)[k] == Past(w, id)[k]
  {
  }

  lemma {:induction false} SeenForever(w: World, calls: seq<R.Call>, id: string, status: Lifecycle)
    requires Seen(w, id, status)
    ensures Seen(R.Run(w, calls), id, status)
  {
    if calls != [] {
      var before := R.Run(w, calls[..|calls| - 1]);
      SeenForever(w, calls[..|calls| - 1], id, status);
      HistoryGrows(before, calls[|calls| - 1], id);
      var k :| 0 <= k < |Past(before, id)| && Past(before, id)[k].status == status;
      assert Past(R.Run(w, calls), id)[k].status == status;
    }
  }

  lemma TransactionIsSeen(w: World, ctx: Context, m: Move, id: string)
    requires ReplyTo(w, ctx, Transition(m, id)).Ok?
    ensures Seen(Apply(w, ctx, Transition(m, id)), id, Target(m))
  {
    var w' := Apply(w, ctx, Transition(m, id));
    assert Past(w', id)[|Past(w, id)|].status == Target(m);
  }

  ghost predicate Backed(s: Sys) {
    && (forall id :: id in s.docs && !s.docs[id].status.Registered? ==> Seen(World(s), id, s.docs[id].status))
    && (forall k :: 0 <= k < |s.tasks| && s.tasks[k].Writing? ==> Seen(World(s), s.tasks[k].id, s.tasks[k].status))
  }

  lemma BackedByMore(s: Sys, s': Sys, calls: seq<R.Call>)
    requires Backed(s) && s'.docs == s.docs && s'.tasks == s.tasks && World(s') == R.Run(World(s), calls)
    ensures Backed(s')
  {
    forall id | id in s.docs && !s.docs[id].status.Registered? ensures Seen(World(s'), id, s.docs[id].status) {
      SeenForever(World(s), calls, id, s.docs[id].status);
    }
    forall k | 0 <= k < |s.tasks| && s.tasks[k].Writing? ensures Seen(World(s'), s.tasks[k].id, s.tasks[k].status) {
      SeenForever(World(s), calls, s.tasks[k].id, s.tasks[k].status);
    }
  }

  lemma BackedStep(s: Sys, st: Step)
    requires Backed(s)
    ensures Backed(Next(s, st))
  {
    var s' := Next(s, st);
    var grown := s.(calls := s'.calls);
    WorldStep(s, st);
    assert World(grown) == World(s');
    BackedByMore(s, grown, CallOf(s, st));
    if st.Transact? && st.k < |s.tasks| && s.tasks[st.k].Checked? {
      TransactIsSeen(s, st.k, st.ctx, st.reported);
    } else if !st.Transact? {
      NothingNewIsClaimed(s, st, grown);
    }
  }

  /** Apart from a transaction no step caches or is about to cache a status that was not cached or about to be. */
  lemma NothingNewIsClaimed(s: Sys, st: Step, grown: Sys)
    requires !st.Transact? && grown == s.(calls := Next(s, st).calls) && Backed(grown)
    ensures Backed(Next(s, st))
  {
    var s' := Next(s, st);
    assert World(s') == World(grown);
    forall k | 0 <= k < |s'.tasks| && s'.tasks[k].Writing? ensures k < |s.tasks| && s'.tasks[k] == s.tasks[k] {
    }
    forall id | id in s'.docs && !s'.docs[id].status.Registered?
      ensures (id in s.docs && s'.docs[id].status == s.docs[id].status)
              || exists k :: 0 <= k < |s.tasks| && s.tasks[k] == Writing(id, s'.docs[id].status)
    {
      if st.Write? && st.k < |s.tasks| && s.tasks[st.k].Writing? && s.tasks[st.k].id == id {
        assert s.tasks[st.k] == Writing(id, s'.docs[id].status);
      }
    }
  }

  lemma TransactIsSeen(s: Sys, k: nat, ctx: Context, reported: bool)
    requires k < |s.tasks| && s.tasks[k].Checked?
    ensures var s' := Next(s, Transact(k, ctx, reported));
            s'.tasks[k].Writing? ==> Seen(World(s'), s'.tasks[k].id, s'.tasks[k].status)
  {
    var s' := Next(s, Transact(k, ctx, reported));
    WorldStep(s, Transact(k, ctx, reported));
    OneCall(World(s), R.Call(ctx, Transition(s.tasks[k].move, s.tasks[k].id)));
    if s'.tasks[k].Writing? {
      TransactionIsSeen(World(s), ctx, s.tasks[k].move, s.tasks[k].id);
    }
  }

  lemma OneCall(w: World, c: R.Call)
    ensures R.Run(w, [c]) == Apply(w, c.ctx, c.tx)
  {
    assert [c][..0] == [];
    assert R.Run(w, [c][..0]) == w;
  }

  lemma {:induction false} RunIsBacked(steps: seq<Step>)
    ensures Backed(Run(Start, steps))
  {
    if steps != [] {
      RunIsBacked(steps[..|steps| - 1]);
      BackedStep(Run(Start, steps[..|steps| - 1]), steps[|steps| - 1]);
    }
  }

  function Rank(st: Lifecycle): nat {
    match st
    case Registered => 0
    case Pending => 0
    case ReviewPending => 1
    case SecurityReviewed => 2
    case Compliant => 3
    case Approved => 4
    case Active => 5
    case Superseded => 6
    case Rejected => 6
  }

  lemma {:induction false} StatusInPath(h: seq<Record>, k: nat)
    requires k < |h|
    ensures h[k].status in R.Path(h)
  {
    if k < |h| - 1 {
      StatusInPath(h[..|h| - 1], k);
    }
  }

  lemma RouteRanks(p: seq<Lifecycle>, st: Lifecycle)
    requires R.IsRoute(p) && st in p
    ensures Rank(st) <= Rank(p[|p| - 1])
  {
    var j :| 0 <= j < |p| && p[j] == st;
    if j < |p| - 1 {
      assert p[..|p| - 1][j] == R.Road[j];
      if |p| <= 6 && p == R.Road[..|p|] {
        assert p[|p| - 1] == R.Road[|p| - 1];
      }
    }
  }

  /**
   In every interleaving of requests and crashes, a cached status other than REGISTERED is one the ledger has recorded
   for that SBOM, and the cache's lifecycle rank never exceeds the ledger's.
   */
  lemma CacheNeverAhead(steps: seq<Step>, id: string)
    requires id in Run(Start, steps).docs
    ensures var s := Run(Start, steps);
            && (!s.docs[id].status.Registered? ==> Seen(World(s), id, s.docs[id].status) && id in World(s).sboms)
            && (id in World(s).sboms ==> Rank(s.docs[id].status) <= Rank(World(s).sboms[id].status))
  {
    var s := Run(Start, steps);
    RunIsBacked(steps);
    R.ReachedIsSound(s.calls);
    if !s.docs[id].status.Registered? {
      SeenIsNotBeyond(World(s), id, s.docs[id].status);
    }
  }

  lemma SeenIsNotBeyond(w: World, id: string, status: Lifecycle)
    requires R.Sound(w) && Seen(w, id, status)
    ensures id in w.sboms && Rank(status) <= Rank(w.sboms[id].status)
  {
    var h := Past(w, id);
    var k :| 0 <= k < |h| && h[k].status == status;
    R.SoundPrefix(w, id, |h|);
    assert h[..|h|] == h;
    StatusInPath(h, k);
    RouteRanks(R.Path(h), status);
  }

  // ---------------------------------------------------------------- a cache that fell behind

  /** Tasks that could still touch the document of a lagging SBOM without catching it up. */
  predicate Harmless(t: Task, id: string, cached: Lifecycle) {
    match t
    case Submitting(i, _) => i != id
    case Finalizing(i, _) => i != id
    case Deleting(i, _) => i != id
    case Checked(m, i) => i == id ==> m.Reject? || m.Supersede? || RouteAllows(m, cached)
    case Writing(i, st) => i == id ==> st.Rejected? || st.Superseded?
    case Reviewed(i) => i != id
    case Sweeping(_, _) => true
    case Done => true
  }

  /** The cached record is still there, with the lagging status or a final one, and no request will change more than that. */
  ghost predicate LaggingCache(s: Sys, id: string, cached: Lifecycle) {
    && id in s.docs && s.docs[id].status in {cached, Rejected, Superseded}
    && forall k :: 0 <= k < |s.tasks| ==> Harmless(s.tasks[k], id, cached)
  }

  predicate LedgerBeyond(w: World, id: string, cached: Lifecycle) {
    id in w.sboms && Rank(cached) < Rank(w.sboms[id].status)
  }

  /** The cached status is, or was before a final one replaced it, behind the ledger's. */
  ghost predicate Lagging(s: Sys, id: string, cached: Lifecycle) {
    LaggingCache(s, id, cached) && LedgerBeyond(World(s), id, cached)
  }

  lemma RankClimbs(w: World, c: R.Call, id: string)
    requires id in w.sboms
    ensures var w' := Apply(w, c.ctx, c.tx);
            id in w'.sboms && Rank(w'.sboms[id].status) >= Rank(w.sboms[id].status)
  {
    if c.tx.Transition? && ReplyTo(w, c.ctx, c.tx).Ok? {
      assert Rank(Target(c.tx.move)) > Rank(w.sboms[c.tx.sbomID].status);
    }
  }

  lemma {:induction false} RankClimbsOverRuns(w: World, calls: seq<R.Call>, id: string)
    requires id in w.sboms
    ensures id in R.Run(w, calls).sboms && Rank(R.Run(w, calls).sboms[id].status) >= Rank(w.sboms[id].status)
  {
    if calls != [] {
      RankClimbsOverRuns(w, calls[..|calls| - 1], id);
      RankClimbs(R.Run(w, calls[..|calls| - 1]), calls[|calls| - 1], id);
    }
  }

  /** From the lagging status only the final transitions still find the ledger where they expect it. */
  lemma LaggingMoveFails(w: World, ctx: Context, m: Move, id: string, cached: Lifecycle)
    requires id in w.sboms && Rank(cached) < Rank(w.sboms[id].status)
    requires RouteAllows(m, cached) && !m.Reject? && !m.Supersede?
    ensures ReplyTo(w, ctx, Transition(m, id)).Err?
  {
  }

  lemma LaggingTransact(s: Sys, k: nat, ctx: Context, reported: bool, id: string, cached: Lifecycle)
    requires Lagging(s, id, cached) && k < |s.tasks| && s.tasks[k].Checked?
    ensures LaggingCache(Next(s, Transact(k, ctx, reported)), id, cached)
  {
    var t := s.tasks[k];
    assert Harmless(t, id, cached);
    if t.id == id && !t.move.Reject? && !t.move.Supersede? {
      LaggingMoveFails(World(s), ctx, t.move, id, cached);
    }
  }

  /** Every step but a transaction keeps the cached side whatever the ledger holds. */
  lemma LaggingOtherStep(s: Sys, st: Step, id: string, cached: Lifecycle)
    requires LaggingCache(s, id, cached) && !st.Transact?
    ensures LaggingCache(Next(s, st), id, cached)
  {
    var s' := Next(s, st);
    assert (st.SubmitTx? || st.Finalize? || st.Delete? || st.Write? || st.Judge? || st.Sweep? || st.Crash?) && st.k < |s.tasks| ==>
        Harmless(s.tasks[st.k], id, cached);
    forall k | 0 <= k < |s'.tasks| ensures Harmless(s'.tasks[k], id, cached) {
      if k < |s.tasks| {
        assert Harmless(s.tasks[k], id, cached);
      }
    }
  }

  lemma LaggingStep(s: Sys, st: Step, id: string, cached: Lifecycle)
    requires Lagging(s, id, cached)
    ensures Lagging(Next(s, st), id, cached)
  {
    WorldStep(s, st);
    RankClimbsOverRuns(World(s), CallOf(s, st), id);
    if st.Transact? {
      if st.k < |s.tasks| && s.tasks[st.k].Checked? {
        LaggingTransact(s, st.k, st.ctx, st.reported, id, cached);
      }
    } else {
      LaggingOtherStep(s, st, id, cached);
    }
  }

  /**
   Once the cache is behind the ledger and the SBOM's requests have ended, no request ever catches it up along the
   lifecycle: the cached status stays, or is replaced by REJECTED or SUPERSEDED, the only way to become level again.
   */
  lemma {:induction false} LaggingCacheNeverRecovers(s: Sys, steps: seq<Step>, id: string, cached: Lifecycle)
    requires Lagging(s, id, cached)
    ensures Lagging(Run(s, steps), id, cached)
  {
    if steps != [] {
      LaggingCacheNeverRecovers(s, steps[..|steps| - 1], id, cached);
      LaggingStep(Run(s, steps[..|steps| - 1]), steps[|steps| - 1], id, cached);
    }
  }

  /** How it gets there: a transaction that commits but reports an error. */
  lemma LostReplyLeavesTheCacheBehind(s: Sys, k: nat, ctx: Context)
    requires k < |s.tasks| && s.tasks[k].Checked? && !s.tasks[k].move.Supersede? && !s.tasks[k].move.Reject?
    requires var id := s.tasks[k].id;
             && ReplyTo(World(s), ctx, Transition(s.tasks[k].move, id)).Ok?
             && id in s.docs && s.docs[id].status == World(s).sboms[id].status
             && forall j :: 0 <= j < |s.tasks| && j != k ==> Harmless(s.tasks[j], id, s.docs[id].status)
    ensures Lagging(Next(s, Transact(k, ctx, false)), s.tasks[k].id, s.docs[s.tasks[k].id].status)
  {
    WorldStep(s, Transact(k, ctx, false));
    OneCall(World(s), R.Call(ctx, Transition(s.tasks[k].move, s.tasks[k].id)));
  }

  /** Finalizing a submission is unguarded: when it comes late it resets an SBOM that is already under review. */
  lemma LateFinalizeResets(s: Sys, k: nat)
    requires k < |s.tasks| && s.tasks[k].Finalizing?
    requires s.tasks[k].id in s.docs && s.docs[s.tasks[k].id].row == s.tasks[k].row
    ensures Next(s, Finalize(k)).docs[s.tasks[k].id].status == Registered
    ensures World(Next(s, Finalize(k))) == World(s)
  {
  }

  const Review := [
    Insert("s", "app"), SubmitTx(0, R.Vendor, R.Sample, true),
    Read(ToReviewPending, "s"), Transact(1, R.Vendor, true), Write(1), Finalize(0)]

  /** Such a run exists, and it leaves the cache behind for good. */
  lemma FinalizeRaceLeavesTheCacheBehind()
    ensures Lagging(Run(Start, Review), "s", Registered)
  {
    var s2 := SubmissionIsFinalizing();
    var s4 := ReviewIsWriting(s2);
    var s5 := Next(s4, Write(1));
    assert s5.tasks == [Finalizing("s", 0), Done] && s5.docs == map["s" := Doc(0, "app", ReviewPending)];
    var s6 := Next(s5, Finalize(0));
    assert s6.tasks == [Done, Done] && s6.docs == map["s" := Doc(0, "app", Registered)];
    assert World(s6) == World(s4);
    assert Lagging(s6, "s", Registered);
    RunOfSix();
  }

  lemma SubmissionIsFinalizing() returns (s2: Sys)
    ensures s2 == Next(Next(Start, Review[0]), Review[1])
    ensures s2.tasks == [Finalizing("s", 0)] && s2.docs == map["s" := Doc(0, "app", Registered)]
    ensures "s" in World(s2).sboms && World(s2).sboms["s"].status == Registered
  {
    var s1 := Next(Start, Insert("s", "app"));
    assert World(s1) == EmptyWorld;
    assert SubmitReply(EmptyWorld, R.Vendor, "s", R.Sample) == Ok(());
    s2 := Next(s1, SubmitTx(0, R.Vendor, R.Sample, true));
    WorldStep(s1, SubmitTx(0, R.Vendor, R.Sample, true));
    OneCall(EmptyWorld, R.Call(R.Vendor, Submit("s", R.Sample)));
  }

  lemma ReviewIsWriting(s2: Sys) returns (s4: Sys)
    requires s2.tasks == [Finalizing("s", 0)] && s2.docs == map["s" := Doc(0, "app", Registered)]
    requires "s" in World(s2).sboms && World(s2).sboms["s"].status == Registered
    ensures s4 == Next(Next(s2, Review[2]), Review[3])
    ensures s4.tasks == [Finalizing("s", 0), Writing("s", ReviewPending)] && s4.docs == s2.docs
    ensures "s" in World(s4).sboms && World(s4).sboms["s"].status == ReviewPending
  {
    var s3 := Next(s2, Read(ToReviewPending, "s"));
    assert s3.tasks == [Finalizing("s", 0), Checked(ToReviewPending, "s")];
    assert World(s3) == World(s2);
    s4 := Next(s3, Transact(1, R.Vendor, true));
    WorldStep(s3, Transact(1, R.Vendor, true));
    OneCall(World(s3), R.Call(R.Vendor, Transition(ToReviewPending, "s")));
  }

  lemma RunOfSix()
    ensures Run(Start, Review) ==
            Next(Next(Next(Next(Next(Next(Start, Review[0]), Review[1]), Review[2]), Review[3]), Review[4]), Review[5])
  {
    assert forall n :: 1 <= n <= 6 ==> Review[..n][..n - 1] == Review[..n - 1];
    assert Review[..6] == Review;
    assert Run(Start, Review[..0]) == Start;
    assert Run(Start, Review[..1]) == Next(Start, Review[0]);
    assert Run(Start, Review[..2]) == Next(Run(Start, Review[..1]), Review[1]);
    assert Run(Start, Review[..3]) == Next(Run(Start, Review[..2]), Review[2]);
    assert Run(Start, Review[..4]) == Next(Run(Start, Review[..3]), Review[3]);
    assert Run(Start, Review[..5]) == Next(Run(Start, Review[..4]), Review[4]);
  }

  // ---------------------------------------------------------------- requests that are let be

  lemma ThreeSteps(s: Sys, a: Step, b: Step, c: Step)
    ensures Run(s, [a, b, c]) == Next(Next(Next(s, a), b), c)
  {
    assert [a, b, c][..2] == [a, b] && [a, b][..1] == [a] && [a][..0] == [];
    assert Run(s, [a]) == Next(Run(s, []), a);
    assert Run(s, [a, b]) == Next(Run(s, [a]), b);
  }

  /** A route that runs undisturbed moves ledger and cache together, exactly when cache and ledger let it; else it moves neither. */
  lemma UndisturbedRouteMovesBoth(s: Sys, m: Move, id: string, ctx: Context)
    requires id in s.docs && RouteAllows(m, s.docs[id].status)
    ensures var k := |s.tasks|;
            var s' := Run(s, [Read(m, id), Transact(k, ctx, true), Write(k)]);
            var moved := MoveReply(World(s), ctx, m, id).Ok?;
            && World(s') == Apply(World(s), ctx, Transition(m, id))
            && s'.docs == if moved then s.docs[id := s.docs[id].(status := World(s').sboms[id].status)] else s.docs
  {
    var k := |s.tasks|;
    var s1 := Next(s, Read(m, id));
    var s2 := Next(s1, Transact(k, ctx, true));
    ThreeSteps(s, Read(m, id), Transact(k, ctx, true), Write(k));
    WorldStep(s1, Transact(k, ctx, true));
    OneCall(World(s1), R.Call(ctx, Transition(m, id)));
    assert World(s1) == World(s) && World(Next(s2, Write(k))) == World(s2);
  }

  /** A submission that runs undisturbed leaves a REGISTERED document beside a REGISTERED record, or neither. */
  lemma UndisturbedSubmissionCreatesBoth(s: Sys, id: string, name: string, ctx: Context, origin: Origin)
    requires id !in s.docs
    ensures var k := |s.tasks|;
            var accepted := SubmitReply(World(s), ctx, id, origin).Ok?;
            var s' := Run(s, [Insert(id, name), SubmitTx(k, ctx, origin, true), if accepted then Finalize(k) else Delete(k)]);
            && World(s') == Apply(World(s), ctx, Submit(id, origin))
            && s'.docs == (if accepted then s.docs[id := Doc(s.rows, name, Registered)] else s.docs)
            && (accepted ==> id in World(s').sboms && World(s').sboms[id].status == Registered)
  {
    var k := |s.tasks|;
    var accepted := SubmitReply(World(s), ctx, id, origin).Ok?;
    var s1 := Next(s, Insert(id, name));
    ThreeSteps(s, Insert(id, name), SubmitTx(k, ctx, origin, true), if accepted then Finalize(k) else Delete(k));
    assert s1.tasks[k] == Submitting(id, s.rows) && World(s1) == World(s);
    SubmissionEnds(s1, k, id, s.rows, ctx, origin);
    assert s1.docs == s.docs[id := Doc(s.rows, name, Registered)];
    assert s1.docs - {id} == s.docs;
  }

  /** From the ledger's answer on. */
  lemma SubmissionEnds(s: Sys, k: nat, id: string, row: nat, ctx: Context, origin: Origin)
    requires k < |s.tasks| && s.tasks[k] == Submitting(id, row) && id in s.docs && s.docs[id].row == row
    ensures var accepted := SubmitReply(World(s), ctx, id, origin).Ok?;
            var s' := Next(Next(s, SubmitTx(k, ctx, origin, true)), if accepted then Finalize(k) else Delete(k));
            && World(s') == Apply(World(s), ctx, Submit(id, origin))
            && s'.docs == (if accepted then s.docs[id := s.docs[id].(status := Registered)] else s.docs - {id})
  {
    WorldStep(s, SubmitTx(k, ctx, origin, true));
    OneCall(World(s), R.Call(ctx, Submit(id, origin)));
    var accepted := SubmitReply(World(s), ctx, id, origin).Ok?;
    assert Next(s, SubmitTx(k, ctx, origin, true)).tasks[k] == if accepted then Finalizing(id, row) else Deleting(id, row);
  }
}

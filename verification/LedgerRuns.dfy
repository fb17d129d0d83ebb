/** What holds of the ledger over every run of transactions, by any callers, in any order. */
module LedgerRuns {
  import opened Prelude
  import opened LedgerModel

  datatype Call = Call(ctx: Context, tx: Tx)

  function Run(w: World, calls: seq<Call>): World {
    if calls == [] then w
    else
      var c := calls[|calls| - 1];
      Apply(Run(w, calls[..|calls| - 1]), c.ctx, c.tx)
  }

  lemma {:induction false} RunConcat(w: World, before: seq<Call>, after: seq<Call>)
    ensures Run(w, before + after) == Run(Run(w, before), after)
  {
    if after == [] {
      assert before + after == before;
    } else {
      ConcatSnoc(before, after);
      RunConcat(w, before, after[..|after| - 1]);
      assert (before + after)[..|before + after| - 1] == before + after[..|after| - 1];
    }
  }

  // ---------------------------------------------------------------- routes through the lifecycle

  const Road := [Registered, ReviewPending, SecurityReviewed, Compliant, Approved, Active]

  /** The statuses a history went through, repetitions dropped. */
  function Path(h: seq<Record>): (p: seq<Lifecycle>)
    ensures h != [] ==> p != [] && p[|p| - 1] == h[|h| - 1].status
  {
    if h == [] then []
    else
      var p, st := Path(h[..|h| - 1]), h[|h| - 1].status;
      if p != [] && p[|p| - 1] == st then p else p + [st]
  }

  /** A beginning of the road, possibly left by rejection anywhere or by supersession from its last two places. */
  predicate IsRoute(p: seq<Lifecycle>) {
    || (1 <= |p| <= 6 && p == Road[..|p|])
    || (2 <= |p| <= 7 && p[..|p| - 1] == Road[..|p| - 1] && p[|p| - 1] == Rejected)
    || (6 <= |p| <= 7 && p[..|p| - 1] == Road[..|p| - 1] && p[|p| - 1] == Superseded)
  }

  lemma RouteGrows(p: seq<Lifecycle>, m: Move)
    requires IsRoute(p) && Allowed(m, p[|p| - 1])
    ensures Target(m) != p[|p| - 1]
    ensures IsRoute(p + [Target(m)])
  {
    assert (p + [Target(m)])[..|p|] == p;
    assert p == Road[..|p|];
  }

  lemma RouteToActive(p: seq<Lifecycle>)
    requires IsRoute(p) && p[|p| - 1] == Active
    ensures p == Road
  {
    assert p == Road[..|p|];
    assert |p| == 6;
  }

  lemma PathSnoc(h: seq<Record>, r: Record)
    ensures Path(h + [r]) == if h != [] && h[|h| - 1].status == r.status then Path(h) else Path(h) + [r.status]
  {
    assert (h + [r])[..|h|] == h;
    assert h == [] ==> Path(h) == [];
  }

  // ---------------------------------------------------------------- the invariant

  /** The decision most recently recorded for the SBOM, if any. */
  function Latest(events: seq<Pointer>, id: string): (p: Option<Pointer>)
    ensures p.Some? ==> p.value in events && p.value.sbomID == id
    ensures p.None? ==> forall e :: e in events ==> e.sbomID != id
  {
    if events == [] then None
    else if events[|events| - 1].sbomID == id then Some(events[|events| - 1])
    else Latest(events[..|events| - 1], id)
  }

  lemma LatestSnoc(events: seq<Pointer>, p: Pointer, id: string)
    ensures Latest(events + [p], id) == if p.sbomID == id then Some(p) else Latest(events, id)
  {
    assert (events + [p])[..|events|] == events;
  }

  /** The trust fields of a record are those of its latest decision, or still the initial ones. */
  predicate TrustAgrees(t: TrustFields, latest: Option<Pointer>) {
    match latest
    case None => t == EnsureTrustSlices(NoTrust)
    case Some(p) =>
      && t.status == p.trustStatus && t.reasonCode == p.reasonCode && t.reasonDesc == p.reasonDescription
      && t.evaluatedAt == p.recordedAt && t.evaluatedBy == p.recordedBy && t.provenanceHash == p.provenanceHash
      && OmitEmpty(t.signatureHashes) == p.signatureHashes && OmitEmpty(t.activeVexIds) == p.activeVexIds
      && t.effectiveRiskScore == p.effectiveRiskScore
  }

  function KeyOf(p: Pointer): Key {
    Key(p.sbomID, p.decisionId)
  }

  predicate HasSlices(r: Record) {
    EnsureSlices(r) == r
  }

  /** Every non-empty beginning of the history went along a route. */
  ghost predicate Routed(h: seq<Record>) {
    h == [] || (Routed(h[..|h| - 1]) && IsRoute(Path(h)))
  }

  lemma {:induction false} RoutedPrefix(h: seq<Record>, k: nat)
    requires Routed(h) && 0 < k <= |h|
    ensures IsRoute(Path(h[..k]))
  {
    if k == |h| {
      assert h[..k] == h;
    } else {
      RoutedPrefix(h[..|h| - 1], k);
      assert h[..|h| - 1][..k] == h[..k];
    }
  }

  ghost predicate SoundHistory(h: seq<Record>, r: Record, id: string) {
    && h != [] && h[|h| - 1] == r
    && r.sbomID == id && HasSlices(r)
    && (forall k :: 0 <= k < |h| ==> h[k].sbomID == id && h[k].origin == r.origin)
    && Routed(h)
  }

  ghost predicate SoundAt(w: World, id: string) {
    && (id in w.history <==> id in w.sboms)
    && (id in w.sboms ==> SoundHistory(w.history[id], w.sboms[id], id))
    && (id in w.sboms ==> TrustAgrees(w.sboms[id].trust, Latest(w.events, id)))
  }

  /** The events are the stored pointers, each key once. */
  ghost predicate SoundDecisions(w: World) {
    && (forall i :: 0 <= i < |w.events| ==>
          && KeyOf(w.events[i]) in w.decisions && w.decisions[KeyOf(w.events[i])] == w.events[i]
          && w.events[i].sbomID in w.sboms && IsDecision(w.events[i].trustStatus))
    && (forall i, j :: 0 <= i < j < |w.events| ==> KeyOf(w.events[i]) != KeyOf(w.events[j]))
    && (forall key :: key in w.decisions ==> w.decisions[key] in w.events && KeyOf(w.decisions[key]) == key)
  }

  ghost predicate Sound(w: World) {
    (forall id :: SoundAt(w, id)) && SoundDecisions(w)
  }

  /** One more record, with the same status or after a move. */
  lemma SoundHistoryGrows(h: seq<Record>, r: Record, r': Record, id: string, m: Option<Move>)
    requires SoundHistory(h, r, id)
    requires r'.sbomID == id && HasSlices(r') && r'.origin == r.origin
    requires if m.None? then r'.status == r.status else Allowed(m.value, r.status) && Target(m.value) == r'.status
    ensures SoundHistory(h + [r'], r', id)
  {
    assert (h + [r'])[..|h|] == h;
    PathSnoc(h, r');
    if m.Some? {
      RouteGrows(Path(h), m.value);
    }
  }

  lemma SoundHistoryStarts(r: Record, id: string)
    requires r.sbomID == id && HasSlices(r) && r.status == Registered
    ensures SoundHistory([r], r, id)
  {
    assert [r][..0] == [];
    assert Path([]) == [];
    assert Path([r]) == [Registered];
    assert Road[..1] == [Registered];
  }

  /** Writing one record leaves the others as they were. */
  lemma PutRecordAt(w: World, id: string, r: Record, other: string)
    ensures var w' := PutRecord(w, id, r);
            && w'.sboms[id] == r && w'.history[id] == Past(w, id) + [r]
            && (other != id ==> (other in w'.sboms <==> other in w.sboms) && (other in w'.history <==> other in w.history))
            && (other != id && other in w.sboms ==> w'.sboms[other] == w.sboms[other])
            && (other != id && other in w.history ==> w'.history[other] == w.history[other])
  {
  }

  lemma SubmitKeepsSound(w: World, ctx: Context, id: string, o: Origin)
    requires Sound(w) && SubmitReply(w, ctx, id, o).Ok?
    ensures Sound(Apply(w, ctx, Submit(id, o)))
  {
    var r := Created(ctx, id, o);
    var w' := PutRecord(w, id, r);
    forall other ensures SoundAt(w', other) {
      PutRecordAt(w, id, r, other);
      assert SoundAt(w, other);
      if other == id {
        SubmittedIsSound(w, ctx, id, o);
      }
    }
    EventsUntouched(w, w');
  }

  lemma NothingDecidedYet(w: World, id: string)
    requires SoundDecisions(w) && id !in w.sboms
    ensures Latest(w.events, id).None?
  {
  }

  lemma SubmittedIsSound(w: World, ctx: Context, id: string, o: Origin)
    requires Sound(w) && SubmitReply(w, ctx, id, o).Ok?
    ensures SoundAt(PutRecord(w, id, Created(ctx, id, o)), id)
  {
    var r := Created(ctx, id, o);
    NothingDecidedYet(w, id);
    assert SoundAt(w, id);
    assert Past(w, id) + [r] == [r];
    SoundHistoryStarts(r, id);
  }

  lemma EventsUntouched(w: World, w': World)
    requires SoundDecisions(w)
    requires w'.events == w.events && w'.decisions == w.decisions && w.sboms.Keys <= w'.sboms.Keys
    ensures SoundDecisions(w')
  {
  }

  lemma MoveKeepsSound(w: World, ctx: Context, m: Move, id: string)
    requires Sound(w) && MoveReply(w, ctx, m, id).Ok?
    ensures Sound(Apply(w, ctx, Transition(m, id)))
  {
    var r := Moved(w.sboms[id], ctx, m);
    var w' := PutRecord(w, id, r);
    forall other ensures SoundAt(w', other) {
      PutRecordAt(w, id, r, other);
      assert SoundAt(w, other);
      if other == id {
        SoundHistoryGrows(w.history[id], w.sboms[id], r, id, Some(m));
      }
    }
    EventsUntouched(w, w');
  }

  lemma DecidedRecord(r: Record, ctx: Context, d: DecisionInput)
    requires HasSlices(r)
    ensures var r' := Decided(r, ctx, d);
            && HasSlices(r') && r'.sbomID == r.sbomID && r'.origin == r.origin && r'.status == r.status
            && TrustAgrees(r'.trust, Some(PointerOf(d, r'.trust)))
  {
  }

  lemma DecideKeepsSound(w: World, ctx: Context, d: DecisionInput)
    requires Sound(w) && DecideReply(w, ctx, d).Ok? && DecisionKey(d) !in w.decisions
    ensures Sound(PutDecision(w, ctx, d))
  {
    var id := d.sbomID;
    var r := Decided(w.sboms[id], ctx, d);
    var p := PointerOf(d, r.trust);
    var w' := PutDecision(w, ctx, d);
    forall other ensures SoundAt(w', other) {
      PutRecordAt(w, id, r, other);
      assert SoundAt(w, other);
      LatestSnoc(w.events, p, other);
      if other == id {
        DecidedRecord(w.sboms[id], ctx, d);
        SoundHistoryGrows(w.history[id], w.sboms[id], r, id, None);
      }
    }
    assert w'.sboms.Keys >= w.sboms.Keys;
    NewEventIsSound(w, w', p);
  }

  lemma NewEventIsSound(w: World, w': World, p: Pointer)
    requires SoundDecisions(w) && KeyOf(p) !in w.decisions && IsDecision(p.trustStatus) && p.sbomID in w.sboms
    requires w'.events == w.events + [p] && w'.decisions == w.decisions[KeyOf(p) := p] && w.sboms.Keys <= w'.sboms.Keys
    ensures SoundDecisions(w')
  {
    forall i | 0 <= i < |w.events| ensures KeyOf(w.events[i]) != KeyOf(p) {
      assert KeyOf(w.events[i]) in w.decisions;
    }
    forall key | key in w'.decisions ensures w'.decisions[key] in w'.events && KeyOf(w'.decisions[key]) == key {
      if key == KeyOf(p) {
        assert w'.events[|w.events|] == p;
      }
    }
  }

  lemma ApplyKeepsSound(w: World, c: Call)
    requires Sound(w)
    ensures Sound(Apply(w, c.ctx, c.tx))
  {
    if ReplyTo(w, c.ctx, c.tx).Ok? {
      match c.tx
      case Submit(id, o) => SubmitKeepsSound(w, c.ctx, id, o);
      case Transition(m, id) => MoveKeepsSound(w, c.ctx, m, id);
      case Decide(d) =>
        if DecisionKey(d) !in w.decisions {
          DecideKeepsSound(w, c.ctx, d);
        }
      case Attest(e) => AttestKeepsSound(w, Apply(w, c.ctx, c.tx));
    }
  }

  lemma AttestKeepsSound(w: World, w': World)
    requires Sound(w)
    requires w'.sboms == w.sboms && w'.history == w.history && w'.decisions == w.decisions && w'.events == w.events
    ensures Sound(w')
  {
    forall id ensures SoundAt(w', id) {
      assert SoundAt(w, id);
    }
    EventsUntouched(w, w');
  }

  lemma {:induction false} RunKeepsSound(w: World, calls: seq<Call>)
    requires Sound(w)
    ensures Sound(Run(w, calls))
  {
    if calls != [] {
      RunKeepsSound(w, calls[..|calls| - 1]);
      ApplyKeepsSound(Run(w, calls[..|calls| - 1]), calls[|calls| - 1]);
    }
  }

  function Reached(calls: seq<Call>): World {
    Run(EmptyWorld, calls)
  }

  lemma ReachedIsSound(calls: seq<Call>)
    ensures Sound(Reached(calls))
  {
    RunKeepsSound(EmptyWorld, calls);
  }

  // ---------------------------------------------------------------- lifecycle over whole runs

  /** Every history, cut anywhere, is a route: no status is skipped, none is entered twice, nothing leaves a terminal one. */
  lemma HistoryIsARoute(calls: seq<Call>, id: string, k: nat)
    requires 0 < k <= |Past(Reached(calls), id)|
    ensures var h := Past(Reached(calls), id);
            && IsRoute(Path(h[..k]))
            && id in Reached(calls).sboms && h[|h| - 1] == Reached(calls).sboms[id]
  {
    ReachedIsSound(calls);
    SoundPrefix(Reached(calls), id, k);
  }

  lemma SoundPrefix(w: World, id: string, k: nat)
    requires SoundAt(w, id) && 0 < k <= |Past(w, id)|
    ensures IsRoute(Path(Past(w, id)[..k]))
    ensures id in w.sboms && Past(w, id)[|Past(w, id)| - 1] == w.sboms[id]
  {
    assert id in w.history && Past(w, id) == w.history[id];
    RoutedPrefix(w.history[id], k);
  }

  /** Whoever was ever ACTIVE went through all five earlier statuses in order, whatever happened later. */
  lemma ActiveTookTheWholeRoad(calls: seq<Call>, id: string, k: nat)
    requires k < |Past(Reached(calls), id)| && Past(Reached(calls), id)[k].status == Active
    ensures Path(Past(Reached(calls), id)[..k + 1]) == Road
  {
    HistoryIsARoute(calls, id, k + 1);
    RouteToActive(Path(Past(Reached(calls), id)[..k + 1]));
  }

  /** The successful lifecycle transactions on one SBOM in a run. */
  function MovesOn(w: World, calls: seq<Call>, id: string): nat {
    if calls == [] then 0
    else
      var before, c := calls[..|calls| - 1], calls[|calls| - 1];
      MovesOn(w, before, id) + if MovesIt(Run(w, before), c, id) then 1 else 0
  }

  function RouteLength(w: World, id: string): nat {
    |Path(Past(w, id))|
  }

  predicate MovesIt(w: World, c: Call, id: string) {
    c.tx.Transition? && c.tx.sbomID == id && ReplyTo(w, c.ctx, c.tx).Ok?
  }

  predicate CreatesIt(w: World, c: Call, id: string) {
    c.tx.Submit? && c.tx.sbomID == id && ReplyTo(w, c.ctx, c.tx).Ok?
  }

  lemma RouteLengthOfPut(w: World, id: string, r: Record, other: string)
    ensures RouteLength(PutRecord(w, id, r), other) ==
            if other != id then RouteLength(w, other)
            else if Past(w, id) != [] && Past(w, id)[|Past(w, id)| - 1].status == r.status then RouteLength(w, id)
            else RouteLength(w, id) + 1
  {
    PathSnoc(Past(w, id), r);
  }

  /** A history is empty exactly for unregistered SBOMs, and it ends in the current status. */
  lemma PastOf(w: World, id: string)
    requires Sound(w)
    ensures Past(w, id) != [] <==> id in w.sboms
    ensures id in w.sboms ==> Past(w, id)[|Past(w, id)| - 1].status == w.sboms[id].status
    ensures RouteLength(w, id) > 0 <==> id in w.sboms
    ensures RouteLength(w, id) <= 7
  {
    assert SoundAt(w, id);
    assert Past(w, id) == [] ==> Path(Past(w, id)) == [];
  }

  lemma TargetIsNew(m: Move, from: Lifecycle)
    requires Allowed(m, from)
    ensures Target(m) != from
  {
  }

  lemma RouteLengthOfDecision(w: World, ctx: Context, d: DecisionInput, id: string)
    requires Sound(w) && d.sbomID in w.sboms
    ensures RouteLength(PutDecision(w, ctx, d), id) == RouteLength(w, id)
  {
    PastOf(w, d.sbomID);
    RouteLengthOfPut(w, d.sbomID, Decided(w.sboms[d.sbomID], ctx, d), id);
  }

  lemma RouteLengthOfMove(w: World, ctx: Context, m: Move, moved: string, id: string)
    requires Sound(w) && MoveReply(w, ctx, m, moved).Ok?
    ensures RouteLength(PutRecord(w, moved, Moved(w.sboms[moved], ctx, m)), id) == RouteLength(w, id) + if id == moved then 1 else 0
  {
    PastOf(w, moved);
    TargetIsNew(m, w.sboms[moved].status);
    RouteLengthOfPut(w, moved, Moved(w.sboms[moved], ctx, m), id);
  }

  lemma RouteLengthStep(w: World, c: Call, id: string)
    requires Sound(w)
    ensures RouteLength(Apply(w, c.ctx, c.tx), id) == RouteLength(w, id) + if MovesIt(w, c, id) || CreatesIt(w, c, id) then 1 else 0
    ensures CreatesIt(w, c, id) ==> RouteLength(w, id) == 0
    ensures MovesIt(w, c, id) ==> RouteLength(w, id) > 0
  {
    PastOf(w, id);
    if ReplyTo(w, c.ctx, c.tx).Ok? {
      match c.tx
      case Submit(i, o) => RouteLengthOfPut(w, i, Created(c.ctx, i, o), id);
      case Transition(m, i) => RouteLengthOfMove(w, c.ctx, m, i, id);
      case Decide(d) =>
        if DecisionKey(d) !in w.decisions {
          RouteLengthOfDecision(w, c.ctx, d, id);
        }
      case Attest(e) =>
    }
  }

  /** Each lifecycle transaction lengthens the route by one, so no SBOM ever sees more than six. */
  lemma {:induction false} AtMostSixMoves(calls: seq<Call>, id: string)
    ensures MovesOn(EmptyWorld, calls, id) == if id in Reached(calls).sboms then RouteLength(Reached(calls), id) - 1 else 0
    ensures MovesOn(EmptyWorld, calls, id) <= 6
  {
    ReachedIsSound(calls);
    if calls == [] {
    } else {
      var before := calls[..|calls| - 1];
      AtMostSixMoves(before, id);
      ReachedIsSound(before);
      RouteLengthStep(Reached(before), calls[|calls| - 1], id);
      PastOf(Reached(before), id);
    }
    PastOf(Reached(calls), id);
  }

  /** SUPERSEDED and REJECTED are absorbing. */
  lemma {:induction false} TerminalForever(w: World, calls: seq<Call>, id: string)
    requires id in w.sboms && (w.sboms[id].status == Superseded || w.sboms[id].status == Rejected)
    ensures id in Run(w, calls).sboms && Run(w, calls).sboms[id].status == w.sboms[id].status
  {
    if calls != [] {
      var before, c := calls[..|calls| - 1], calls[|calls| - 1];
      TerminalForever(w, before, id);
      TerminalStays(Run(w, before), c, id);
    }
  }

  lemma TerminalStays(w: World, c: Call, id: string)
    requires id in w.sboms && (w.sboms[id].status == Superseded || w.sboms[id].status == Rejected)
    ensures id in Apply(w, c.ctx, c.tx).sboms && Apply(w, c.ctx, c.tx).sboms[id].status == w.sboms[id].status
  {
    if ReplyTo(w, c.ctx, c.tx).Ok? && c.tx.Transition? {
      assert c.tx.sbomID != id;
    }
  }

  // ---------------------------------------------------------------- identity and integrity

  lemma {:induction false} OriginForever(w: World, calls: seq<Call>, id: string)
    requires Sound(w) && id in w.sboms
    ensures id in Run(w, calls).sboms
    ensures Run(w, calls).sboms[id].origin == w.sboms[id].origin && Run(w, calls).sboms[id].sbomID == id
  {
    if calls == [] {
      assert SoundAt(w, id);
    } else {
      var before, c := calls[..|calls| - 1], calls[|calls| - 1];
      OriginForever(w, before, id);
      RunKeepsSound(w, before);
      OriginStep(Run(w, before), c, id);
    }
  }

  lemma RecordIsWhole(w: World, id: string)
    requires Sound(w) && id in w.sboms
    ensures w.sboms[id].sbomID == id && HasSlices(w.sboms[id])
  {
    assert SoundAt(w, id);
  }

  lemma OriginStep(w: World, c: Call, id: string)
    requires Sound(w) && id in w.sboms
    ensures var w' := Apply(w, c.ctx, c.tx);
            id in w'.sboms && w'.sboms[id].origin == w.sboms[id].origin && w'.sboms[id].sbomID == id
  {
    RecordIsWhole(w, id);
    if c.tx.Decide? {
      DecidedRecord(w.sboms[id], c.ctx, c.tx.decision);
    }
  }

  /** After a successful submission the integrity query compares with the submitted hash, for ever. */
  lemma IntegrityComparesWithSubmission(before: seq<Call>, ctx: Context, id: string, o: Origin, after: seq<Call>, h: string)
    requires ReplyTo(Reached(before), ctx, Submit(id, o)).Ok? && h != ""
    ensures var later := Reached(before + [Call(ctx, Submit(id, o))] + after);
            && VerifyIntegrity(later, id, h).Ok?
            && VerifyIntegrity(later, id, h).value.storedHash == o.hash
            && (VerifyIntegrity(later, id, h).value.matches <==> h == o.hash)
  {
    var c := Call(ctx, Submit(id, o));
    var w := Apply(Reached(before), ctx, Submit(id, o));
    assert (before + [c])[..|before|] == before;
    RunConcat(EmptyWorld, before + [c], after);
    ReachedIsSound(before);
    ApplyKeepsSound(Reached(before), c);
    OriginForever(w, after, id);
  }

  // ---------------------------------------------------------------- the trust gate

  /** The trust fields of an SBOM are those of its most recent newly recorded decision; the status is one of the four from then on. */
  lemma TrustIsLatestDecision(calls: seq<Call>, id: string)
    requires id in Reached(calls).sboms
    ensures var w := Reached(calls);
            && TrustAgrees(w.sboms[id].trust, Latest(w.events, id))
            && (w.sboms[id].trust.status.Unset? <==> Latest(w.events, id).None?)
            && (w.sboms[id].trust.status.Unset? || IsDecision(w.sboms[id].trust.status))
  {
    ReachedIsSound(calls);
    assert SoundAt(Reached(calls), id);
  }

  /** Once decided, never undecided. */
  lemma {:induction false} DecidedForever(w: World, calls: seq<Call>, id: string)
    requires Latest(w.events, id).Some?
    ensures Latest(Run(w, calls).events, id).Some?
  {
    if calls != [] {
      var before, c := calls[..|calls| - 1], calls[|calls| - 1];
      DecidedForever(w, before, id);
      var u := Run(w, before);
      if c.tx.Decide? && DecideReply(u, c.ctx, c.tx.decision).Ok? && DecisionKey(c.tx.decision) !in u.decisions {
        LatestSnoc(u.events, PointerOf(c.tx.decision, Decided(u.sboms[c.tx.decision.sbomID], c.ctx, c.tx.decision).trust), id);
      }
    }
  }

  /** Approval and activation succeed exactly from the right status with a TRUSTED latest decision or with no decision at all. */
  lemma GateOpensIff(calls: seq<Call>, ctx: Context, m: Move, id: string)
    requires Gated(m) && ctx.identity.Some?
    ensures var w := Reached(calls);
            ReplyTo(w, ctx, Transition(m, id)).Ok? <==>
            && id != "" && id in w.sboms && Allowed(m, w.sboms[id].status)
            && (Latest(w.events, id).Some? ==> Latest(w.events, id).value.trustStatus.Trusted?)
  {
    ReachedIsSound(calls);
    assert SoundAt(Reached(calls), id);
  }

  /** Replaying any recorded decision, in agreement or in conflict, changes nothing: an older verdict is not revived. */
  lemma ReplayChangesNothing(w: World, ctx: Context, d: DecisionInput)
    requires DecisionKey(d) in w.decisions
    ensures Apply(w, ctx, Decide(d)) == w
    ensures DecideReply(w, ctx, d).Ok? <==> DecisionCheck(ctx, d).Ok? && SamePayload(w.decisions[DecisionKey(d)], d)
  {
  }

  const Vendor := Context(VendorMSP, Some("vendor"), 1)
  const Sample := Origin("h", "b", "n", "1", "SPDX", "ref", Some(["sig"]), "", "", None, "")

  /** The gate does not ask for an evaluation: a run without any decision reaches ACTIVE. */
  lemma UndecidedReachesActive()
    ensures exists calls: seq<Call> ::
              && "s" in Reached(calls).sboms && Reached(calls).sboms["s"].status == Active
              && Latest(Reached(calls).events, "s").None?
  {
    var c0 := Call(Vendor, Submit("s", Sample));
    var moves := [ToReviewPending, ToSecurityReviewed, MarkCompliant, Approve, Activate];
    var calls := [c0];
    SubmittedIsRegistered(calls);
    var i := 0;
    while i < |moves|
      invariant 0 <= i <= |moves|
      invariant "s" in Reached(calls).sboms && Reached(calls).sboms["s"].status == Road[i]
      invariant Reached(calls).events == [] && Reached(calls).sboms["s"].trust.status.Unset?
    {
      var c := Call(Vendor, Transition(moves[i], "s"));
      assert (calls + [c])[..|calls|] == calls;
      assert Allowed(moves[i], Road[i]) && Target(moves[i]) == Road[i + 1];
      assert ReplyTo(Reached(calls), c.ctx, c.tx) == Ok(());
      calls := calls + [c];
      i := i + 1;
    }
  }

  lemma SubmittedIsRegistered(calls: seq<Call>)
    requires calls == [Call(Vendor, Submit("s", Sample))]
    ensures var w := Reached(calls);
            && "s" in w.sboms && w.sboms["s"].status == Registered && w.sboms["s"].trust.status.Unset? && w.events == []
  {
    assert Run(EmptyWorld, calls[..0]) == EmptyWorld;
    assert SubmitReply(EmptyWorld, Vendor, "s", Sample) == Ok(());
    assert Reached(calls) == PutRecord(EmptyWorld, "s", Created(Vendor, "s", Sample));
  }

  // ---------------------------------------------------------------- decision pointers

  /** A stored pointer is never replaced. */
  lemma {:induction false} PointerForever(w: World, calls: seq<Call>, key: Key)
    requires key in w.decisions
    ensures key in Run(w, calls).decisions && Run(w, calls).decisions[key] == w.decisions[key]
  {
    if calls != [] {
      PointerForever(w, calls[..|calls| - 1], key);
    }
  }

  /** The transactions of a run that wrote the decision: a pointer and the trust fields of its SBOM. */
  function WritesOf(w: World, calls: seq<Call>, key: Key): nat {
    if calls == [] then 0
    else
      var before, c := calls[..|calls| - 1], calls[|calls| - 1];
      WritesOf(w, before, key) + if Writes(Run(w, before), c, key) then 1 else 0
  }

  predicate Writes(w: World, c: Call, key: Key) {
    c.tx.Decide? && DecisionKey(c.tx.decision) == key && key !in w.decisions && ReplyTo(w, c.ctx, c.tx).Ok?
  }

  /** However often a decision is submitted, it is written at most once, and exactly when its pointer exists. */
  lemma {:induction false} WrittenOnce(calls: seq<Call>, key: Key)
    ensures WritesOf(EmptyWorld, calls, key) == if key in Reached(calls).decisions then 1 else 0
  {
    if calls != [] {
      WrittenOnce(calls[..|calls| - 1], key);
    }
  }

  predicate ListReplays(given: Slice, stored: Slice) {
    if given.Some? then given.value != [] else stored == Some([])
  }

  /**
   Submitting a decision again, at any later time and by any governance caller, succeeds exactly when each of its two
   lists is non-empty, or absent over an SBOM whose own list was empty when the decision was recorded.
   */
  lemma ReplayIff(before: seq<Call>, ctx: Context, d: DecisionInput, after: seq<Call>, ctx': Context)
    requires Writes(Reached(before), Call(ctx, Decide(d)), DecisionKey(d))
    requires ctx'.msp.SecurityMSP? || ctx'.msp.AuditorMSP?
    ensures var trust := Reached(before).sboms[d.sbomID].trust;
            var later := Run(Apply(Reached(before), ctx, Decide(d)), after);
            DecideReply(later, ctx', d).Ok? <==>
            ListReplays(d.signatureHashes, trust.signatureHashes) && ListReplays(d.activeVexIds, trust.activeVexIds)
  {
    ReachedIsSound(before);
    var w := Reached(before);
    assert SoundAt(w, d.sbomID);
    PointerForever(Apply(w, ctx, Decide(d)), after, DecisionKey(d));
  }

  lemma WrittenPointer(w: World, ctx: Context, d: DecisionInput)
    requires Writes(w, Call(ctx, Decide(d)), DecisionKey(d))
    ensures var w' := Apply(w, ctx, Decide(d));
            DecisionKey(d) in w'.decisions
            && w'.decisions[DecisionKey(d)] == PointerOf(d, DecidedTrust(w.sboms[d.sbomID].trust, ctx, d))
  {
  }

  /** The recorded decision reads back, for ever, with the submitted fields and the lists the SBOM then carried. */
  lemma {:induction false} DecisionReadsBack(before: seq<Call>, ctx: Context, d: DecisionInput, after: seq<Call>)
    requires Writes(Reached(before), Call(ctx, Decide(d)), DecisionKey(d))
    ensures var trust := Reached(before).sboms[d.sbomID].trust;
            var later := Run(Apply(Reached(before), ctx, Decide(d)), after);
            GetTrustDecision(later, d.sbomID, d.decisionId) ==
            Ok(Pointer(d.decisionId, d.sbomID, d.trustStatus, d.reasonCode, d.reasonDescription, d.policyVersion,
                       d.idempotencyKey, d.provenanceHash, Inherit(d.signatureHashes, trust.signatureHashes),
                       Inherit(d.activeVexIds, trust.activeVexIds), d.effectiveRiskScore, d.evidenceBundleHash, ctx.now,
                       CallerName(ctx)))
  {
    ReachedIsSound(before);
    var w := Reached(before);
    assert SoundAt(w, d.sbomID);
    WrittenPointer(w, ctx, d);
    PointerForever(Apply(w, ctx, Decide(d)), after, DecisionKey(d));
  }

  /** No decision of the run carries a list of its own. */
  predicate ListFree(calls: seq<Call>) {
    forall i :: 0 <= i < |calls| && calls[i].tx.Decide? ==>
      calls[i].tx.decision.signatureHashes.None? && calls[i].tx.decision.activeVexIds.None?
  }

  ghost predicate ListsEmpty(w: World) {
    && (forall id :: id in w.sboms ==>
          w.sboms[id].trust.signatureHashes == Some([]) && w.sboms[id].trust.activeVexIds == Some([]))
    && (forall key :: key in w.decisions ==>
          w.decisions[key].signatureHashes.None? && w.decisions[key].activeVexIds.None?)
  }

  lemma {:induction false} ListFreeKeepsListsEmpty(w: World, calls: seq<Call>)
    requires ListsEmpty(w) && ListFree(calls)
    ensures ListsEmpty(Run(w, calls))
  {
    if calls != [] {
      ListFreeKeepsListsEmpty(w, calls[..|calls| - 1]);
    }
  }

  /** With list-free decisions only, every list stays empty and every recorded decision can be submitted again. */
  lemma ListFreeDecisionsReplay(calls: seq<Call>, d: DecisionInput, before: nat, ctx: Context)
    requires ListFree(calls) && before < |calls|
    requires Writes(Reached(calls[..before]), Call(calls[before].ctx, Decide(d)), DecisionKey(d)) && calls[before].tx == Decide(d)
    requires ctx.msp.SecurityMSP? || ctx.msp.AuditorMSP?
    ensures ListsEmpty(Reached(calls))
    ensures ReplyTo(Reached(calls), ctx, Decide(d)).Ok? && Apply(Reached(calls), ctx, Decide(d)) == Reached(calls)
  {
    ListFreeKeepsListsEmpty(EmptyWorld, calls);
    ListFreeKeepsListsEmpty(EmptyWorld, calls[..before]);
    var written := Apply(Reached(calls[..before]), calls[before].ctx, Decide(d));
    assert calls == calls[..before + 1] + calls[before + 1..];
    assert calls[..before + 1][..before] == calls[..before];
    RunConcat(EmptyWorld, calls[..before + 1], calls[before + 1..]);
    ReplayIff(calls[..before], calls[before].ctx, d, calls[before + 1..], ctx);
    PointerForever(written, calls[before + 1..], DecisionKey(d));
  }

  // ---------------------------------------------------------------- when a transaction succeeds and what it writes

  /** A digest is `sha256:` and 64 lower-case hexadecimal digits. */
  lemma DigestIff(d: string)
    ensures IsDigest(d) <==> exists hex: string :: |hex| == 64 && (forall c :: c in hex ==> c in "0123456789abcdef") && d == "sha256:" + hex
  {
    var digits := "0123456789abcdef";
    forall c ensures IsHex(c) <==> c in digits {
      HexDigit(c);
    }
    if |d| == 71 && d[..7] == "sha256:" {
      var hex := d[7..];
      assert d == "sha256:" + hex;
      assert forall i :: 7 <= i < 71 ==> d[i] == hex[i - 7];
      if IsDigest(d) {
        forall c | c in hex ensures c in digits {
          var i :| 0 <= i < 64 && hex[i] == c;
          assert IsHex(d[i + 7]);
        }
      }
    }
    if hex: string :| |hex| == 64 && (forall c :: c in hex ==> c in digits) && d == "sha256:" + hex {
      assert d[..7] == "sha256:";
      forall i | 7 <= i < 71 ensures IsHex(d[i]) {
        assert d[i] == hex[i - 7] && hex[i - 7] in hex;
      }
    }
  }

  lemma HexDigit(c: char)
    ensures IsHex(c) <==> c in "0123456789abcdef"
  {
    var digits := "0123456789abcdef";
    if '0' <= c <= '9' {
      assert digits[c as int - '0' as int] == c;
    } else if 'a' <= c <= 'f' {
      assert digits[10 + c as int - 'a' as int] == c;
    }
  }

  /** Registration: every field, one of two formats, a signature, a new id and a readable caller. */
  lemma SubmitIff(w: World, ctx: Context, id: string, o: Origin)
    ensures SubmitReply(w, ctx, id, o).Ok? <==>
            && "" !in [id, o.hash, o.buildID, o.softwareName, o.softwareVersion, o.format, o.offChainRef]
            && o.format in ["SPDX", "CycloneDX"]
            && o.signatures.Some? && |o.signatures.value| > 0
            && id !in w.sboms && ctx.identity.Some?
    ensures SubmitReply(w, ctx, id, o).Ok? ==>
            var w' := Apply(w, ctx, Submit(id, o));
            && w' == w.(sboms := w'.sboms, history := w'.history)
            && w'.sboms.Keys == w.sboms.Keys + {id} && (forall other :: other in w.sboms ==> w'.sboms[other] == w.sboms[other])
            && var r := w'.sboms[id];
               && r.sbomID == id && r.status == Registered && r.timestamp == ctx.now && r.submitterID == ctx.identity.value
               && r.origin.(signatures := None, policyViolations := None) == o.(signatures := None, policyViolations := None)
               && r.origin.signatures == o.signatures && r.trust.status == Unset
  {
  }

  /** The lifecycle: which status each move starts from and leads to, and that nothing else about the record changes. */
  lemma MoveIff(w: World, ctx: Context, m: Move, id: string)
    ensures MoveReply(w, ctx, m, id).Ok? <==>
            && id != "" && id in w.sboms && ctx.identity.Some?
            && (m == ToReviewPending ==> w.sboms[id].status in {Registered, Pending})
            && (m == ToSecurityReviewed ==> w.sboms[id].status == ReviewPending)
            && (m == MarkCompliant ==> w.sboms[id].status == SecurityReviewed)
            && (m == Approve ==> w.sboms[id].status == Compliant)
            && (m == Activate ==> w.sboms[id].status == Approved)
            && (m == Supersede ==> w.sboms[id].status in {Approved, Active})
            && (m == Reject ==> w.sboms[id].status !in {Superseded, Rejected})
            && (m in {Approve, Activate} ==>
                  w.sboms[id].trust.status !in {Refused, Untrusted, ReviewRequired, Unevaluated, ConditionallyAccepted})
    ensures MoveReply(w, ctx, m, id).Ok? ==>
            var w' := Apply(w, ctx, Transition(m, id));
            && w' == w.(sboms := w'.sboms, history := w'.history)
            && w'.sboms == w.sboms[id := w'.sboms[id]] && w'.history == w.history[id := Past(w, id) + [w'.sboms[id]]]
            && w'.sboms[id] == w.sboms[id].(status := w'.sboms[id].status, timestamp := ctx.now, submitterID := ctx.identity.value)
            && w'.sboms[id].status == (match m
                                       case ToReviewPending => ReviewPending
                                       case ToSecurityReviewed => SecurityReviewed
                                       case MarkCompliant => Compliant
                                       case Approve => Approved
                                       case Activate => Active
                                       case Supersede => Superseded
                                       case Reject => Rejected)
  {
  }

  /** A decision: who may record it, in which form, and on what; one already recorded must be repeated field by field. */
  lemma DecideIff(w: World, ctx: Context, d: DecisionInput)
    ensures DecideReply(w, ctx, d).Ok? <==>
            && d.version == "3.0" && d.sbomID != "" && d.decisionId != ""
            && d.trustStatus in {Trusted, ConditionallyAccepted, ReviewRequired, Refused}
            && (d.provenanceHash == "" || IsDigest(d.provenanceHash))
            && (d.signatureHashes.Some? ==> forall s :: s in d.signatureHashes.value ==> IsDigest(s))
            && ctx.msp in {SecurityMSP, AuditorMSP}
            && (if Key(d.sbomID, d.decisionId) in w.decisions then
                  w.decisions[Key(d.sbomID, d.decisionId)].(decisionId := d.decisionId, sbomID := d.sbomID, recordedAt := 0, recordedBy := "") ==
                  Pointer(d.decisionId, d.sbomID, d.trustStatus, d.reasonCode, d.reasonDescription, d.policyVersion,
                          d.idempotencyKey, d.provenanceHash, d.signatureHashes, d.activeVexIds, d.effectiveRiskScore,
                          d.evidenceBundleHash, 0, "")
                else d.sbomID in w.sboms)
  {
    if d.signatureHashes.Some? {
      var hashes := d.signatureHashes.value;
      forall i | 0 <= i < |hashes| ensures hashes[i] in hashes {
      }
    }
  }

  /** A new decision sets the trust fields of its SBOM, adds its pointer and its event, and leaves everything else. */
  lemma DecideWrites(w: World, ctx: Context, d: DecisionInput)
    requires DecideReply(w, ctx, d).Ok? && Key(d.sbomID, d.decisionId) !in w.decisions
    ensures var w' := Apply(w, ctx, Decide(d));
            var key, r, r' := Key(d.sbomID, d.decisionId), w.sboms[d.sbomID], w'.sboms[d.sbomID];
            && w'.evidence == w.evidence && w'.sboms == w.sboms[d.sbomID := r']
            && w'.history == w.history[d.sbomID := Past(w, d.sbomID) + [r']]
            && key in w'.decisions && w'.decisions == w.decisions[key := w'.decisions[key]] && w'.events == w.events + [w'.decisions[key]]
            && r'.sbomID == r.sbomID && r'.status == r.status && r'.timestamp == r.timestamp && r'.submitterID == r.submitterID
            && r'.origin.hash == r.origin.hash
            && r'.trust.status == d.trustStatus && r'.trust.reasonCode == d.reasonCode && r'.trust.reasonDesc == d.reasonDescription
            && r'.trust.provenanceHash == d.provenanceHash && r'.trust.effectiveRiskScore == d.effectiveRiskScore
            && r'.trust.evaluatedAt == ctx.now && r'.trust.evaluatedBy == (if ctx.identity.Some? then ctx.identity.value else "unknown")
            && (d.signatureHashes.Some? ==> r'.trust.signatureHashes == d.signatureHashes)
            && (d.activeVexIds.Some? ==> r'.trust.activeVexIds == d.activeVexIds)
  {
  }

  /** Evidence: the same, open to every organisation but foreign ones. */
  lemma AttestIff(w: World, ctx: Context, e: EvidenceInput)
    ensures AttestReply(w, ctx, e).Ok? <==>
            && e.version == "3.0" && e.sbomID != "" && e.evidenceId != "" && IsDigest(e.evidenceHash)
            && ctx.msp in {VendorMSP, SecurityMSP, AuditorMSP}
            && (if Key(e.sbomID, e.evidenceId) in w.evidence then
                  w.evidence[Key(e.sbomID, e.evidenceId)].(evidenceId := e.evidenceId, sbomID := e.sbomID, recordedAt := 0, recordedBy := "") ==
                  Evidence(e.evidenceId, e.sbomID, e.evidenceType, e.evidenceHash, e.evidencePayload, 0, "")
                else e.sbomID in w.sboms)
  {
  }

  lemma {:induction false} EvidenceForever(w: World, calls: seq<Call>, key: Key)
    requires key in w.evidence
    ensures key in Run(w, calls).evidence && Run(w, calls).evidence[key] == w.evidence[key]
  {
    if calls != [] {
      EvidenceForever(w, calls[..|calls| - 1], key);
    }
  }

  /** Accepted evidence is on the ledger ever after as it was first submitted, with the first caller and time. */
  lemma EvidenceReadsBack(w: World, ctx: Context, e: EvidenceInput, after: seq<Call>)
    requires AttestReply(w, ctx, e).Ok?
    ensures var key, later := Key(e.sbomID, e.evidenceId), Run(Apply(w, ctx, Attest(e)), after);
            && key in later.evidence
            && later.evidence[key].evidenceType == e.evidenceType && later.evidence[key].evidenceHash == e.evidenceHash
            && later.evidence[key].evidencePayload == e.evidencePayload
            && (key !in w.evidence ==>
                  later.evidence[key] == Evidence(e.evidenceId, e.sbomID, e.evidenceType, e.evidenceHash, e.evidencePayload,
                                                  ctx.now, if ctx.identity.Some? then ctx.identity.value else "unknown"))
    ensures Apply(w, ctx, Attest(e)) == w.(evidence := Apply(w, ctx, Attest(e)).evidence)
  {
    EvidenceForever(Apply(w, ctx, Attest(e)), after, Key(e.sbomID, e.evidenceId));
  }

  /** The two queries: when they answer, and with what. */
  lemma QueriesIff(w: World, id: string, submittedHash: string, decisionId: string)
    ensures var v := VerifyIntegrity(w, id, submittedHash);
            && (v.Ok? <==> id != "" && submittedHash != "" && id in w.sboms)
            && (v.Ok? ==> v.value == Verification(w.sboms[id].sbomID, submittedHash, w.sboms[id].origin.hash,
                                                  w.sboms[id].origin.hash == submittedHash, w.sboms[id].status))
    ensures var d := GetTrustDecision(w, id, decisionId);
            && (d.Ok? <==> id != "" && decisionId != "" && Key(id, decisionId) in w.decisions)
            && (d.Ok? ==> d.value.signatureHashes.Some? && d.value.activeVexIds.Some?
                          && d.value.(signatureHashes := None, activeVexIds := None) ==
                             w.decisions[Key(id, decisionId)].(signatureHashes := None, activeVexIds := None))
  {
  }
}

/** The context-risk fold: one pass over the vulnerabilities of an SBOM in its deployment context. */
module ContextRisk {
  import opened Prelude

  datatype Applicability = UnknownVex | AffectedVex | NotAffectedVex | FixedVex | UnderInvestigationVex
  datatype Environment = NoEnvironment | UnknownEnvironment | Development | Test | Staging | Production
  datatype Exposure = UnknownExposure | NoExposure | Internal | RestrictedPublic | Public
  datatype Presence = UnknownPresence | Present | Partial | NotPresent
  datatype Runtime = UnknownRuntime | Executed | PresentNotExecuted | NotExecuted

  /** Of the remaining attributes only one value each is ever looked at. */
  datatype Vector = Vector(
    environment: Environment, exposure: Exposure, criticalAsset: bool, systemPrivilege: bool, restrictedData: bool,
    presence: Presence, runtime: Runtime)

  datatype Vulnerability = Vulnerability(vex: Applicability, critical: bool)

  datatype Input = Input(
    conflict: bool, invalidContext: bool, missingContext: bool, classAFailure: bool, contextRequired: bool,
    vulnerabilities: seq<Vulnerability>, vexTrusted: bool, vexCurrent: bool, vexExactScope: bool,
    presenceTrusted: bool, vector: Vector, exceptionActive: bool, exceptionTrusted: bool, hasAssertion: bool)

  datatype Exploitability = UnknownExploitability | Exploitable | NotExploitable | UnderInvestigation
  datatype Risk = UnknownRisk | Low | High | Critical
  datatype Blocking = NonBlocking | ReviewRequired | Blocked
  datatype Assurance = NotEvaluated | VerifiedTrusted | Conflicting | Invalid | Missing

  datatype Outcome = Outcome(
    assurance: Assurance, risk: Risk, blocking: Blocking, exceptionRequired: bool, conditionallyAccepted: bool)

  function Level(b: Blocking): nat {
    match b
    case NonBlocking => 0
    case ReviewRequired => 1
    case Blocked => 2
  }

  function Worse(a: Blocking, b: Blocking): Blocking {
    if Level(a) >= Level(b) then a else b
  }

  // ---------------------------------------------------------------- one vulnerability

  /** How exploitable a vulnerability is held to be, and whether that rests on a component that is present but not run. */
  function Exploitation(input: Input, v: Vulnerability): (Exploitability, bool) {
    var comp, run := input.vector.presence, input.vector.runtime;
    if v.vex.AffectedVex? && (comp.Present? || comp.Partial?) && run.Executed? then (Exploitable, false)
    else if v.vex.NotAffectedVex? then
      if input.vexTrusted && input.vexCurrent && input.vexExactScope then (NotExploitable, false) else (UnknownExploitability, false)
    else if v.vex.UnderInvestigationVex? then (UnderInvestigation, false)
    else if comp.NotPresent? && input.presenceTrusted then (NotExploitable, false)
    else if comp.Present? && run.PresentNotExecuted? then (UnknownExploitability, true)
    else if comp.Present? && run.Executed? then (Exploitable, false)
    else (UnknownExploitability, false)
  }

  function RiskOf(input: Input, v: Vulnerability): Risk {
    var (expl, dormant) := Exploitation(input, v);
    var c := input.vector;
    if expl.UnderInvestigation? || dormant then UnknownRisk
    else if c.environment.Production? && (c.exposure.Public? || c.exposure.RestrictedPublic?) && !expl.NotExploitable? && v.critical then Critical
    else if !expl.NotExploitable? && ((c.environment.Production? && c.criticalAsset) || c.systemPrivilege || c.restrictedData) then High
    else if c.environment.NoEnvironment? && v.critical && !expl.NotExploitable? then Critical
    else Low
  }

  /** What one vulnerability asks for: blocking, a review, or nothing. */
  function VerdictOf(input: Input, v: Vulnerability): Blocking {
    var risk := RiskOf(input, v);
    if risk.High? || risk.Critical? then Blocked
    else if risk.UnknownRisk? || (v.vex.NotAffectedVex? && !(input.vexTrusted && input.vexCurrent && input.vexExactScope)) then ReviewRequired
    else NonBlocking
  }

  // ---------------------------------------------------------------- the fold

  function Worst(input: Input, vs: seq<Vulnerability>): Blocking {
    if vs == [] then NonBlocking else Worse(Worst(input, vs[..|vs| - 1]), VerdictOf(input, vs[|vs| - 1]))
  }

  ghost predicate SomeRisk(input: Input, vs: seq<Vulnerability>, risk: Risk) {
    exists i :: 0 <= i < |vs| && RiskOf(input, vs[i]) == risk
  }

  ghost function HighestRisk(input: Input, vs: seq<Vulnerability>): Risk {
    if SomeRisk(input, vs, Critical) then Critical else if SomeRisk(input, vs, High) then High else Low
  }

  predicate ContextUnusable(input: Input) {
    input.conflict || input.invalidContext || input.missingContext
  }

  function UnusableAssurance(input: Input): Assurance {
    if input.conflict then Conflicting else if input.invalidContext then Invalid else Missing
  }

  function FoldedBlocking(input: Input): Blocking {
    if input.vulnerabilities != [] then Worst(input, input.vulnerabilities)
    else if input.contextRequired && input.vector.environment.NoEnvironment? then ReviewRequired
    else NonBlocking
  }

  /** The outcome, stated by what it depends on. */
  ghost function OutcomeOf(input: Input): Outcome {
    if ContextUnusable(input) then Outcome(UnusableAssurance(input), UnknownRisk, ReviewRequired, false, false)
    else
      var vs, folded := input.vulnerabilities, FoldedBlocking(input);
      Outcome(if input.hasAssertion then VerifiedTrusted else NotEvaluated,
              HighestRisk(input, vs),
              if input.classAFailure then Blocked else folded,
              SomeRisk(input, vs, Critical),
              folded.Blocked? && input.exceptionActive && input.exceptionTrusted && !input.classAFailure)
  }

  /** The code: flags raised in the loop, then early returns, then overrides. */
  method EvaluateContextRisk(input: Input) returns (result: Outcome)
    ensures result == OutcomeOf(input)
  {
    var usable := !input.missingContext && !input.invalidContext && !input.conflict && input.hasAssertion;
    result := Outcome(if usable then VerifiedTrusted else NotEvaluated, UnknownRisk, ReviewRequired, false, false);
    var highestRisk, isBlocking, needsReview, exceptionNeeded := Low, false, false, false;
    var vulns := input.vulnerabilities;
    if |vulns| > 0 {
      var i := 0;
      while i < |vulns|
        invariant 0 <= i <= |vulns|
        invariant Worst(input, vulns[..i]) == if isBlocking then Blocked else if needsReview then ReviewRequired else NonBlocking
        invariant highestRisk == HighestRisk(input, vulns[..i])
        invariant exceptionNeeded <==> SomeRisk(input, vulns[..i], Critical)
      {
        var risk, blockStatus, review := JudgeVulnerability(input, vulns[i]);
        TakeSnoc(vulns, i);
        HighestRiskSnoc(input, vulns[..i], vulns[i]);
        assert vulns[..i + 1][..i] == vulns[..i];
        if risk.Critical? {
          exceptionNeeded := true;
        }
        if blockStatus.Blocked? {
          isBlocking := true;
        }
        if blockStatus.ReviewRequired? || review {
          needsReview := true;
        }
        highestRisk := if risk.Critical? then Critical else if risk.High? && !highestRisk.Critical? then High else highestRisk;
        i := i + 1;
      }
      assert vulns[..i] == vulns;
    } else if input.contextRequired && input.vector.environment.NoEnvironment? {
      needsReview := true;
    }
    if input.conflict {
      return result.(assurance := Conflicting);
    }
    if input.invalidContext {
      return result.(assurance := Invalid);
    }
    if input.missingContext {
      return result.(assurance := Missing);
    }
    result := result.(blocking := if isBlocking then Blocked else if needsReview then ReviewRequired else NonBlocking,
                      risk := highestRisk, exceptionRequired := exceptionNeeded);
    if input.exceptionActive && input.exceptionTrusted && result.blocking.Blocked? {
      result := result.(conditionallyAccepted := true);
    }
    if input.classAFailure {
      result := result.(blocking := Blocked, conditionallyAccepted := false);
    }
  }

  /** The body of the loop: the branches in the order of the code. */
  method JudgeVulnerability(input: Input, v: Vulnerability) returns (risk: Risk, blockStatus: Blocking, review: bool)
    ensures risk == RiskOf(input, v)
    ensures VerdictOf(input, v) == if blockStatus.NonBlocking? && review then ReviewRequired else blockStatus
    ensures blockStatus.Blocked? <==> risk.High? || risk.Critical?
  {
    review := false;
    var expl, dormant := UnknownExploitability, false;
    var comp, run := input.vector.presence, input.vector.runtime;
    if v.vex.AffectedVex? && (comp.Present? || comp.Partial?) && run.Executed? {
      expl := Exploitable;
    } else if v.vex.NotAffectedVex? {
      if input.vexTrusted && input.vexCurrent && input.vexExactScope {
        expl := NotExploitable;
      } else {
        review := true;
      }
    } else if v.vex.UnderInvestigationVex? {
      expl := UnderInvestigation;
    } else if comp.NotPresent? && input.presenceTrusted {
      expl := NotExploitable;
    } else if comp.Present? && run.PresentNotExecuted? {
      dormant := true;
    } else if comp.Present? && run.Executed? {
      expl := Exploitable;
    }
    var env, exp := input.vector.environment, input.vector.exposure;
    risk, blockStatus := Low, NonBlocking;
    if expl.UnderInvestigation? || dormant {
      blockStatus, risk := ReviewRequired, UnknownRisk;
    } else if env.Production? && (exp.Public? || exp.RestrictedPublic?) && !expl.NotExploitable? && v.critical {
      risk, blockStatus := Critical, Blocked;
    } else if env.Production? && input.vector.criticalAsset && !expl.NotExploitable? {
      risk, blockStatus := High, Blocked;
    } else if input.vector.systemPrivilege && !expl.NotExploitable? {
      risk, blockStatus := High, Blocked;
    } else if input.vector.restrictedData && !expl.NotExploitable? {
      risk, blockStatus := High, Blocked;
    } else if env.Development? && (exp.NoExposure? || exp.Internal?) && !expl.Exploitable? {
      risk, blockStatus := Low, NonBlocking;
    } else if env.NoEnvironment? && v.critical && !expl.NotExploitable? {
      risk, blockStatus := Critical, Blocked;
    }
  }

  lemma SomeRiskSnoc(input: Input, vs: seq<Vulnerability>, v: Vulnerability, risk: Risk)
    ensures SomeRisk(input, vs + [v], risk) <==> SomeRisk(input, vs, risk) || RiskOf(input, v) == risk
  {
    if i :| 0 <= i < |vs| && RiskOf(input, vs[i]) == risk {
      assert (vs + [v])[i] == vs[i];
    }
    assert (vs + [v])[|vs|] == v;
  }

  lemma HighestRiskSnoc(input: Input, vs: seq<Vulnerability>, v: Vulnerability)
    ensures SomeRisk(input, vs + [v], Critical) <==> SomeRisk(input, vs, Critical) || RiskOf(input, v) == Critical
    ensures SomeRisk(input, vs + [v], High) <==> SomeRisk(input, vs, High) || RiskOf(input, v) == High
  {
    SomeRiskSnoc(input, vs, v, Critical);
    SomeRiskSnoc(input, vs, v, High);
  }

  // ---------------------------------------------------------------- properties of the fold

  /** The folded verdict is the maximum of the single verdicts: none exceeds it, and it is one of them. */
  lemma {:induction false} WorstIsMaximum(input: Input, vs: seq<Vulnerability>)
    ensures forall v :: v in vs ==> Level(VerdictOf(input, v)) <= Level(Worst(input, vs))
    ensures vs != [] ==> exists v :: v in vs && VerdictOf(input, v) == Worst(input, vs)
    ensures vs == [] ==> Worst(input, vs) == NonBlocking
  {
    if vs != [] {
      var init, v := vs[..|vs| - 1], vs[|vs| - 1];
      WorstIsMaximum(input, init);
      assert v in vs;
      assert forall x :: x in vs <==> x in init || x == v by {
        InitLast(vs);
      }
      if Worst(input, vs) != VerdictOf(input, v) {
        var x :| init != [] && x in init && VerdictOf(input, x) == Worst(input, init);
        assert x in vs && VerdictOf(input, x) == Worst(input, vs);
      }
    }
  }

  /** The fold does not look at exceptions. */
  lemma {:induction false} SameFold(a: Input, b: Input, vs: seq<Vulnerability>)
    requires b == a.(exceptionActive := b.exceptionActive, exceptionTrusted := b.exceptionTrusted)
    ensures Worst(a, vs) == Worst(b, vs)
    ensures forall risk :: SomeRisk(a, vs, risk) <==> SomeRisk(b, vs, risk)
  {
    assert forall v :: RiskOf(a, v) == RiskOf(b, v) && VerdictOf(a, v) == VerdictOf(b, v);
    if vs != [] {
      SameFold(a, b, vs[..|vs| - 1]);
    }
  }

  /** Two lists with the same vulnerabilities, in any order and multiplicity, have the same outcome. */
  lemma OutcomeIgnoresOrder(input: Input, vs: seq<Vulnerability>)
    requires forall v :: v in vs <==> v in input.vulnerabilities
    ensures OutcomeOf(input.(vulnerabilities := vs)) == OutcomeOf(input)
  {
    var other := input.(vulnerabilities := vs);
    SameJudgement(input, vs);
    WorstIsMaximum(input, input.vulnerabilities);
    WorstIsMaximum(other, vs);
    SomeRiskIgnoresOrder(input, other, Critical);
    SomeRiskIgnoresOrder(input, other, High);
    FirstIs(vs);
    FirstIs(input.vulnerabilities);
  }

  lemma FirstIs<T>(xs: seq<T>)
    ensures xs != [] ==> xs[0] in xs
  {
  }

  lemma SameJudgement(input: Input, vs: seq<Vulnerability>)
    ensures forall v :: VerdictOf(input.(vulnerabilities := vs), v) == VerdictOf(input, v)
    ensures forall v :: RiskOf(input.(vulnerabilities := vs), v) == RiskOf(input, v)
  {
  }

  lemma SomeRiskIgnoresOrder(a: Input, b: Input, risk: Risk)
    requires b == a.(vulnerabilities := b.vulnerabilities)
    requires forall v :: v in a.vulnerabilities <==> v in b.vulnerabilities
    ensures SomeRisk(a, a.vulnerabilities, risk) <==> SomeRisk(b, b.vulnerabilities, risk)
  {
    SameJudgement(a, b.vulnerabilities);
    if i :| 0 <= i < |a.vulnerabilities| && RiskOf(a, a.vulnerabilities[i]) == risk {
      assert a.vulnerabilities[i] in b.vulnerabilities;
    }
    if i :| 0 <= i < |b.vulnerabilities| && RiskOf(b, b.vulnerabilities[i]) == risk {
      assert b.vulnerabilities[i] in a.vulnerabilities;
    }
  }

  /** More vulnerabilities never make a non-empty list look better. */
  lemma MoreVulnerabilitiesMonotone(input: Input, extra: seq<Vulnerability>)
    requires input.vulnerabilities != []
    ensures var more := OutcomeOf(input.(vulnerabilities := input.vulnerabilities + extra));
            && Level(OutcomeOf(input).blocking) <= Level(more.blocking)
            && (OutcomeOf(input).exceptionRequired ==> more.exceptionRequired)
  {
    var vs := input.vulnerabilities;
    SameJudgement(input, vs + extra);
    WorstIsMaximum(input, vs);
    WorstIsMaximum(input.(vulnerabilities := vs + extra), vs + extra);
    if i :| 0 <= i < |vs| && RiskOf(input, vs[i]) == Critical {
      assert (vs + extra)[i] == vs[i];
    }
  }

  /** An empty list is the exception: where context is required but no environment known it asks for a review that a
      harmless vulnerability takes away. */
  lemma EmptyListIsNotBest(input: Input, v: Vulnerability)
    requires input.vulnerabilities == [] && !ContextUnusable(input) && !input.classAFailure
    ensures Level(OutcomeOf(input.(vulnerabilities := [v])).blocking) < Level(OutcomeOf(input).blocking) <==>
            input.contextRequired && input.vector.environment.NoEnvironment? && VerdictOf(input, v).NonBlocking?
  {
    var other := input.(vulnerabilities := [v]);
    assert [v][..0] == [];
    assert Worst(other, []) == NonBlocking;
    SameJudgement(input, [v]);
  }

  /** With a usable context and no class A failure: blocking is exactly high or critical risk, and an exception is required
      exactly at critical risk. */
  lemma BlockingIffHighRisk(input: Input)
    requires !ContextUnusable(input) && !input.classAFailure
    ensures var o := OutcomeOf(input);
            && (o.blocking.Blocked? <==> o.risk.High? || o.risk.Critical?)
            && (o.exceptionRequired <==> o.risk.Critical?)
  {
    var vs := input.vulnerabilities;
    WorstIsMaximum(input, vs);
    if OutcomeOf(input).blocking.Blocked? {
      var v :| v in vs && VerdictOf(input, v) == Blocked;
      var i :| 0 <= i < |vs| && vs[i] == v;
      assert RiskOf(input, vs[i]).High? || RiskOf(input, vs[i]).Critical?;
    }
    if i :| 0 <= i < |vs| && (RiskOf(input, vs[i]).High? || RiskOf(input, vs[i]).Critical?) {
      assert vs[i] in vs && VerdictOf(input, vs[i]) == Blocked;
    }
  }

  /** A conflicting, invalid or missing context hides every vulnerability and even a class A failure behind a review. */
  lemma UnusableContextMasks(input: Input, vs: seq<Vulnerability>)
    requires ContextUnusable(input)
    ensures OutcomeOf(input.(vulnerabilities := vs, classAFailure := true)) == OutcomeOf(input)
    ensures OutcomeOf(input).blocking == ReviewRequired && !OutcomeOf(input).exceptionRequired
  {
  }

  // ---------------------------------------------------------------- the verdicts, from the evidence

  /** A trusted statement clears the vulnerability, or the component is known to be absent and no statement is pending on it. */
  ghost predicate Cleared(i: Input, v: Vulnerability) {
    || (v.vex == NotAffectedVex && i.vexTrusted && i.vexCurrent && i.vexExactScope)
    || (v.vex !in {NotAffectedVex, UnderInvestigationVex} && i.vector.presence == NotPresent && i.presenceTrusted)
  }

  /** Under investigation, or present but not run. */
  ghost predicate Pending(i: Input, v: Vulnerability) {
    || v.vex == UnderInvestigationVex
    || (v.vex != NotAffectedVex && i.vector.presence == Present && i.vector.runtime == PresentNotExecuted)
  }

  /** A critical vulnerability in open production or in a place nobody knows. */
  ghost predicate CriticallyExposed(i: Input, v: Vulnerability) {
    v.critical && (i.vector.environment == NoEnvironment || (i.vector.environment == Production && i.vector.exposure in {Public, RestrictedPublic}))
  }

  /** A place where any vulnerability is too much. */
  ghost predicate Sensitive(i: Input) {
    (i.vector.environment == Production && i.vector.criticalAsset) || i.vector.systemPrivilege || i.vector.restrictedData
  }

  ghost predicate Threatens(i: Input, v: Vulnerability) {
    !Cleared(i, v) && !Pending(i, v) && (CriticallyExposed(i, v) || Sensitive(i))
  }

  ghost predicate Doubtful(i: Input, v: Vulnerability) {
    Pending(i, v) || (v.vex == NotAffectedVex && !Cleared(i, v))
  }

  lemma VerdictIff(i: Input, v: Vulnerability)
    ensures VerdictOf(i, v) == Blocked <==> Threatens(i, v)
    ensures VerdictOf(i, v) == ReviewRequired <==> Doubtful(i, v) && !Threatens(i, v)
  {
  }

  /** Which risk a vulnerability is given. In an unknown place a sensitive context makes a critical one merely HIGH. */
  lemma RiskIff(i: Input, v: Vulnerability)
    ensures RiskOf(i, v) == Critical <==> Threatens(i, v) && CriticallyExposed(i, v) && (i.vector.environment == Production || !Sensitive(i))
    ensures RiskOf(i, v) == High <==> Threatens(i, v) && Sensitive(i) && (i.vector.environment == NoEnvironment || !CriticallyExposed(i, v))
    ensures RiskOf(i, v) == UnknownRisk <==> Pending(i, v)
  {
  }

  ghost predicate SomeThreat(i: Input) {
    exists v :: v in i.vulnerabilities && Threatens(i, v)
  }

  ghost predicate SomeDoubt(i: Input) {
    exists v :: v in i.vulnerabilities && Doubtful(i, v)
  }

  /** What the whole list of vulnerabilities asks for. */
  lemma FoldIff(i: Input)
    ensures FoldedBlocking(i) == Blocked <==> SomeThreat(i)
    ensures FoldedBlocking(i) == ReviewRequired <==>
            !SomeThreat(i) && (SomeDoubt(i) || (i.vulnerabilities == [] && i.contextRequired && i.vector.environment == NoEnvironment))
  {
    var vs := i.vulnerabilities;
    WorstIsMaximum(i, vs);
    forall v ensures VerdictOf(i, v) == Blocked <==> Threatens(i, v)
             ensures VerdictOf(i, v) == ReviewRequired <==> Doubtful(i, v) && !Threatens(i, v)
    {
      VerdictIff(i, v);
    }
    FirstIs(vs);
  }

  /** The verdict of the engine, from the evidence. */
  lemma OutcomeIff(i: Input)
    ensures var o := OutcomeOf(i);
            var clear := !i.conflict && !i.invalidContext && !i.missingContext;
            && (o.blocking == Blocked <==> clear && (i.classAFailure || SomeThreat(i)))
            && (o.blocking == NonBlocking <==>
                  && clear && !i.classAFailure && !SomeThreat(i) && !SomeDoubt(i)
                  && !(i.vulnerabilities == [] && i.contextRequired && i.vector.environment == NoEnvironment))
            && (o.conditionallyAccepted <==> clear && !i.classAFailure && SomeThreat(i) && i.exceptionActive && i.exceptionTrusted)
  {
    FoldIff(i);
  }

  lemma SomeRiskIff(i: Input, risk: Risk)
    ensures SomeRisk(i, i.vulnerabilities, risk) <==> exists v :: v in i.vulnerabilities && RiskOf(i, v) == risk
  {
    if v :| v in i.vulnerabilities && RiskOf(i, v) == risk {
      var k :| 0 <= k < |i.vulnerabilities| && i.vulnerabilities[k] == v;
    }
    if k :| 0 <= k < |i.vulnerabilities| && RiskOf(i, i.vulnerabilities[k]) == risk {
      assert i.vulnerabilities[k] in i.vulnerabilities;
    }
  }

  /** When an exception is required, and which risk and assurance are reported. */
  lemma ReportIff(i: Input)
    ensures var o := OutcomeOf(i);
            var clear := !i.conflict && !i.invalidContext && !i.missingContext;
            var top := exists v :: v in i.vulnerabilities && Threatens(i, v) && CriticallyExposed(i, v)
                                   && (i.vector.environment == Production || !Sensitive(i));
            && (o.exceptionRequired <==> clear && top)
            && o.risk == (if !clear then UnknownRisk else if top then Critical else if SomeThreat(i) then High else Low)
            && (o.assurance == VerifiedTrusted <==> clear && i.hasAssertion)
            && (o.assurance == NotEvaluated <==> clear && !i.hasAssertion)
            && (o.assurance == Conflicting <==> i.conflict)
            && (o.assurance == Invalid <==> i.invalidContext && !i.conflict)
  {
    SomeRiskIff(i, Critical);
    SomeRiskIff(i, High);
    forall v
      ensures RiskOf(i, v) == Critical <==> Threatens(i, v) && CriticallyExposed(i, v) && (i.vector.environment == Production || !Sensitive(i))
      ensures RiskOf(i, v) == High <==> Threatens(i, v) && Sensitive(i) && (i.vector.environment == NoEnvironment || !CriticallyExposed(i, v))
    {
      RiskIff(i, v);
    }
  }

  // ---------------------------------------------------------------- worse surroundings

  function Openness(e: Exposure): nat {
    match e
    case UnknownExposure => 0
    case NoExposure => 1
    case Internal => 2
    case RestrictedPublic => 3
    case Public => 4
  }

  /** The same place, no less exposed, no less critical, no less privileged and with no less sensitive data. */
  ghost predicate NoMilder(a: Vector, b: Vector) {
    && b.environment == a.environment && b.presence == a.presence && b.runtime == a.runtime
    && Openness(a.exposure) <= Openness(b.exposure)
    && (a.criticalAsset ==> b.criticalAsset) && (a.systemPrivilege ==> b.systemPrivilege) && (a.restrictedData ==> b.restrictedData)
  }

  ghost predicate NoLessSevere(a: Vulnerability, b: Vulnerability) {
    b.vex == a.vex && (a.critical ==> b.critical)
  }

  ghost predicate Raised(a: Input, b: Input) {
    && b == a.(vector := b.vector, vulnerabilities := b.vulnerabilities)
    && NoMilder(a.vector, b.vector)
    && |a.vulnerabilities| == |b.vulnerabilities|
    && forall k :: 0 <= k < |a.vulnerabilities| ==> NoLessSevere(a.vulnerabilities[k], b.vulnerabilities[k])
  }

  /** Raising exposure, criticality, privilege, sensitivity or severities never lowers the verdict. */
  lemma RaisingNeverLowersTheVerdict(a: Input, b: Input)
    requires Raised(a, b)
    ensures Level(OutcomeOf(a).blocking) <= Level(OutcomeOf(b).blocking)
  {
    OutcomeIff(a);
    OutcomeIff(b);
    if SomeThreat(a) {
      var v :| v in a.vulnerabilities && Threatens(a, v);
      var k :| 0 <= k < |a.vulnerabilities| && a.vulnerabilities[k] == v;
      assert Threatens(b, b.vulnerabilities[k]);
      assert b.vulnerabilities[k] in b.vulnerabilities;
    }
    if SomeDoubt(a) {
      var v :| v in a.vulnerabilities && Doubtful(a, v);
      var k :| 0 <= k < |a.vulnerabilities| && a.vulnerabilities[k] == v;
      assert Doubtful(b, b.vulnerabilities[k]);
      assert b.vulnerabilities[k] in b.vulnerabilities;
    }
  }

  /**
   The risk itself can fall: raising the surroundings of a vulnerability that is CRITICAL leaves it so exactly unless the
   place is unknown and the new surroundings are sensitive, when it becomes HIGH and no exception is required any more.
   */
  lemma RaisingLowersCriticalRiskIff(a: Input, b: Input, v: Vulnerability, w: Vulnerability)
    requires NoMilder(a.vector, b.vector) && NoLessSevere(v, w) && b == a.(vector := b.vector) && RiskOf(a, v) == Critical
    ensures RiskOf(b, w) == if a.vector.environment == NoEnvironment && Sensitive(b) then High else Critical
  {
    RiskIff(a, v);
    RiskIff(b, w);
  }

  /** A FIXED statement changes nothing: the fold has no branch for it. */
  lemma FixedVexIsIgnored(input: Input, critical: bool)
    ensures VerdictOf(input, Vulnerability(FixedVex, critical)) == VerdictOf(input, Vulnerability(UnknownVex, critical))
    ensures RiskOf(input, Vulnerability(FixedVex, critical)) == RiskOf(input, Vulnerability(UnknownVex, critical))
  {
  }
}

/** The guard's decision for each phase, and exactly when it is given. */
module Guard {
  import opened Wrappers
  import opened Sequences
  import opened GuardText
  import opened MarkerText
  import opened Markers
  import opened Manifest
  import opened Evidence
  import opened WorkBlock
  import opened Scope
  import opened ScopeCheck
  import opened Snapshot

  datatype Decision =
    | GuardFailed | NonAuthoritative
    | Continue | Ready
    | AuditGuardPass
    | AwaitingHuman | HumanRejected | HumanAuthorized | AutoAuthorized

  /** The reading of a snapshot that a phase acts on. */
  datatype Case = Case(w: WorkBlock, m: AcceptanceManifest, build: Resolution, audit: Resolution)

  // ----- Stages shared by the phases -----

  ghost predicate IsDescribed(s: Snapshot, w: WorkBlock, m: AcceptanceManifest) {
    DescribesBlock(s, w) && DeclaresManifest(s.documents, m) && ManifestFits(s, w, m)
  }

  ghost predicate IsAdmitted(s: Snapshot, phase: Phase, world: World, w: WorkBlock, m: AcceptanceManifest) {
    IsDescribed(s, w, m) && !s.source.FromJson? && Admitted(s, phase, world, w)
  }

  predicate IsResolved(s: Snapshot, phase: Phase, c: Case) {
    && s.pullRequest.Some?
    && var markers, head := AllMarkers(s.comments), s.pullRequest.value.headSha;
       markers.Pass?
       && ResolveMarkers(markers.value, BuildRole, c.w.block, head, phase) == Pass(c.build)
       && ResolveMarkers(markers.value, AuditRole, c.w.block, head, phase) == Pass(c.audit)
  }

  ghost predicate Stage(s: Snapshot, phase: Phase, world: World, c: Case) {
    IsAdmitted(s, phase, world, c.w, c.m) && IsResolved(s, phase, c)
  }

  predicate Passes(r: Resolution) {
    r.marker.Some? && r.marker.value.status.Passed?
  }

  ghost predicate CarriedBy(r: Resolution, m: AcceptanceManifest, s: Snapshot, world: World) {
    r.marker.Some? && Carries(r.marker.value, m, s, world)
  }

  /** A v2 audit must not repeat the build's payload. */
  predicate Independent(build: Resolution, audit: Resolution) {
    build.marker.Some? && audit.marker.Some?
    && build.marker.value.kind.BuildV2? && audit.marker.value.kind.AuditV2?
    && build.marker.value.block == audit.marker.value.block && build.marker.value.sha == audit.marker.value.sha ==>
      NormalizeLines(build.marker.value.payload) != NormalizeLines(audit.marker.value.payload)
  }

  // ----- The decisions -----

  ghost predicate IsReady(s: Snapshot, world: World, c: Case) {
    Stage(s, BuildPhase, world, c) && Passes(c.build) && CarriedBy(c.build, c.m, s, world) && ChecksPass(s) && SmokePasses(s)
  }

  ghost predicate IsAuditable(s: Snapshot, world: World, c: Case) {
    && Stage(s, AuditPhase, world, c) && Passes(c.build) && CarriedBy(c.build, c.m, s, world)
    && Independent(c.build, c.audit) && ChecksPass(s) && SmokePasses(s)
  }

  /** Everything finalize asks for before it looks at who decides. */
  ghost predicate IsFinalizable(s: Snapshot, world: World, c: Case) {
    && Stage(s, FinalizePhase, world, c) && Passes(c.build) && CarriedBy(c.build, c.m, s, world)
    && Independent(c.build, c.audit) && Passes(c.audit) && CarriedBy(c.audit, c.m, s, world)
    && c.build.duplicates == [] && c.audit.duplicates == []
    && ChecksPass(s) && SmokePasses(s) && Reviewed(s) && LiveEvidence(s)
  }

  function Receipt(s: Snapshot, world: World, c: Case): Guarded<Option<HumanReceipt>>
    requires s.pullRequest.Some?
  {
    ResolveReceipt(s.comments, c.w.block, s.pullRequest.value.headSha, world.digest(c.m), c.audit.marker)
  }

  ghost predicate Finalizes(s: Snapshot, world: World, c: Case, decision: Decision) {
    && IsFinalizable(s, world, c)
    && match decision
       case AutoAuthorized => c.w.policy.Auto?
       case HumanAuthorized =>
         c.w.policy.Human? && Receipt(s, world, c).Pass? && Receipt(s, world, c).value.Some?
         && Receipt(s, world, c).value.value.decision.Approve?
       case HumanRejected =>
         c.w.policy.Human? && Receipt(s, world, c).Pass? && Receipt(s, world, c).value.Some?
         && Receipt(s, world, c).value.value.decision.Reject?
       case AwaitingHuman => c.w.policy.Human? && Receipt(s, world, c) == Pass(None)
       case _ => false
  }

  /** BUILD may go on: no pull request yet, no PASS marker yet, or only the smoke is missing. */
  ghost predicate MayContinue(s: Snapshot, world: World) {
    if s.pullRequest.None? then exists w, m :: IsAdmitted(s, BuildPhase, world, w, m)
    else exists c :: Stage(s, BuildPhase, world, c)
           && (!Passes(c.build) || (CarriedBy(c.build, c.m, s, world) && ChecksPass(s) && !SmokePasses(s)))
  }

  /** The decisions a phase can give, each with its conditions. */
  ghost predicate Decides(s: Snapshot, phase: Phase, world: World, decision: Decision) {
    match decision
    case GuardFailed => forall d: Decision | d != GuardFailed :: !Grounds(s, phase, world, d)
    case _ => Grounds(s, phase, world, decision)
  }

  ghost predicate Grounds(s: Snapshot, phase: Phase, world: World, decision: Decision) {
    match decision
    case GuardFailed => false
    case NonAuthoritative => s.source.FromJson? && exists w, m :: IsDescribed(s, w, m)
    case Continue => phase.BuildPhase? && MayContinue(s, world)
    case Ready => phase.BuildPhase? && exists c :: IsReady(s, world, c)
    case AuditGuardPass => phase.AuditPhase? && exists c :: IsAuditable(s, world, c)
    case AwaitingHuman => phase.FinalizePhase? && exists c :: Finalizes(s, world, c, AwaitingHuman)
    case HumanRejected => phase.FinalizePhase? && exists c :: Finalizes(s, world, c, HumanRejected)
    case HumanAuthorized => phase.FinalizePhase? && exists c :: Finalizes(s, world, c, HumanAuthorized)
    case AutoAuthorized => phase.FinalizePhase? && exists c :: Finalizes(s, world, c, AutoAuthorized)
  }

  // ----- One reading per snapshot -----

  lemma OneDescription(s: Snapshot, w: WorkBlock, m: AcceptanceManifest, w': WorkBlock, m': AcceptanceManifest)
    requires IsDescribed(s, w, m) && IsDescribed(s, w', m')
    ensures w == w' && m == m'
  {
    hide DeclaresManifest, WorkBlockOf;
    ManifestIsUnique(s.documents, m, m');
  }

  lemma OneCase(s: Snapshot, phase: Phase, world: World, c: Case, d: Case)
    requires Stage(s, phase, world, c) && Stage(s, phase, world, d)
    ensures c == d
  {
    hide Admitted, AllMarkers, ResolveMarkers, DeclaresManifest;
    OneDescription(s, c.w, c.m, d.w, d.m);
  }

  /** At most one decision has grounds, so the conditions determine the outcome. */
  lemma OneDecision(s: Snapshot, phase: Phase, world: World, a: Decision, b: Decision)
    requires Grounds(s, phase, world, a) && Grounds(s, phase, world, b)
    ensures a == b
  {
    hide Stage, IsDescribed, IsAdmitted, Receipt, CarriedBy, ChecksPass, SmokePasses, Passes;
    if s.source.FromJson? {
      JsonIsNotAdmitted(s, phase, world);
    }
    forall c: Case, d: Case | Stage(s, phase, world, c) && Stage(s, phase, world, d) ensures c == d {
      OneCase(s, phase, world, c, d);
    }
    StageHasPullRequest(s, phase, world);
  }

  lemma StageHasPullRequest(s: Snapshot, phase: Phase, world: World)
    ensures forall c | Stage(s, phase, world, c) :: s.pullRequest.Some?
  {
    hide IsAdmitted;
  }

  lemma JsonIsNotAdmitted(s: Snapshot, phase: Phase, world: World)
    requires s.source.FromJson?
    ensures forall c :: !Stage(s, phase, world, c)
    ensures forall w, m :: !IsAdmitted(s, phase, world, w, m)
  {
  }

  /** The grounds of a decision, for a reading already known. */
  ghost predicate CaseGrounds(s: Snapshot, phase: Phase, world: World, c: Case, decision: Decision) {
    match decision
    case GuardFailed => false
    case NonAuthoritative => false
    case Continue => phase.BuildPhase?
        && (!Passes(c.build) || (CarriedBy(c.build, c.m, s, world) && ChecksPass(s) && !SmokePasses(s)))
    case Ready => phase.BuildPhase? && IsReady(s, world, c)
    case AuditGuardPass => phase.AuditPhase? && IsAuditable(s, world, c)
    case _ => phase.FinalizePhase? && Finalizes(s, world, c, decision)
  }

  lemma GroundsOfCase(s: Snapshot, phase: Phase, world: World, c: Case, decision: Decision)
    requires Stage(s, phase, world, c)
    ensures Grounds(s, phase, world, decision) <==> CaseGrounds(s, phase, world, c, decision)
  {
    hide Stage, IsDescribed, IsAdmitted, Receipt, CarriedBy, ChecksPass, SmokePasses, Passes;
    if s.source.FromJson? {
      JsonIsNotAdmitted(s, phase, world);
    }
    StageHasPullRequest(s, phase, world);
    forall d: Case | Stage(s, phase, world, d) ensures d == c {
      OneCase(s, phase, world, c, d);
    }
  }

  // ----- The evaluation -----

  method Describe(s: Snapshot) returns (r: Guarded<(WorkBlock, AcceptanceManifest)>)
    ensures r.Pass? ==> IsDescribed(s, r.value.0, r.value.1)
    ensures r.GuardFailure? ==> forall w, m :: !IsDescribed(s, w, m)
  {
    hide DeclaresManifest, WorkBlockOf, NamesDistinct;
    var w := ParseWorkBlock(s.declared);
    if w.GuardFailure? || !IsTarget(s, w.value) {
      return GuardFailure;
    }
    var m := ParseManifest(s.documents);
    if m.GuardFailure? {
      return GuardFailure;
    }
    if !ManifestFits(s, w.value, m.value) {
      forall w', m' ensures !IsDescribed(s, w', m') {
        if IsDescribed(s, w', m') {
          ManifestIsUnique(s.documents, m.value, m');
        }
      }
      return GuardFailure;
    }
    r := Pass((w.value, m.value));
  }

  method Admit(s: Snapshot, phase: Phase, world: World, w: WorkBlock) returns (ok: bool)
    ensures ok <==> Admitted(s, phase, world, w)
  {
    hide Describes, WellDeclared, InScope, AuthoritySnapshotFits, FinalizationAuthority;
    if !s.source.Live? {
      return true;
    }
    var authority := FinalizationAuthority(w, s.repository, phase, world.policies);
    if s.scope.None? || authority.GuardFailure? {
      return false;
    }
    var scope := ParseScope(s.lines);
    if scope.GuardFailure? {
      return false;
    }
    var standing := authority.value.standing.Some?;
    var evaluation := ValidateScope(w, scope.value, s.scope.value, standing);
    ScopeIsTheParsedOne(s.lines, scope.value, w, s.scope.value, standing);
    ok := evaluation.Pass? && AuthoritySnapshotFits(s, w, world);
  }

  lemma ScopeIsTheParsedOne(
    lines: seq<Line>, parsed: DeclaredScope, w: WorkBlock, evidence: ScopeEvidence, standing: bool)
    requires WellDeclared(lines) && Describes(parsed, lines)
    ensures ScopeAccepted(lines, w, evidence, standing) <==> InScope(w, parsed, evidence, standing)
  {
    hide Describes, WellDeclared, InScope;
    if ScopeAccepted(lines, w, evidence, standing) {
      var scope :| Describes(scope, lines) && InScope(w, scope, evidence, standing);
      ScopeDescribedOnce(scope, parsed, lines);
    }
  }

  method Resolve(s: Snapshot, phase: Phase, w: WorkBlock, m: AcceptanceManifest) returns (r: Guarded<Case>)
    requires s.pullRequest.Some?
    ensures r.Pass? ==> r.value.w == w && r.value.m == m && IsResolved(s, phase, r.value)
    ensures r.GuardFailure? ==> forall c: Case | c.w == w :: !IsResolved(s, phase, c)
  {
    hide AllMarkers, ResolveMarkers;
    var head := s.pullRequest.value.headSha;
    var markers := ParseAllMarkers(s.comments);
    if markers.GuardFailure? {
      return GuardFailure;
    }
    var build := ResolveMarkers(markers.value, BuildRole, w.block, head, phase);
    var audit := ResolveMarkers(markers.value, AuditRole, w.block, head, phase);
    if build.GuardFailure? || audit.GuardFailure? {
      return GuardFailure;
    }
    r := Pass(Case(w, m, build.value, audit.value));
  }

  method DecideBuild(s: Snapshot, world: World, c: Case) returns (d: Decision)
    requires Stage(s, BuildPhase, world, c) && LegalItems(c.m)
    ensures d != GuardFailed ==> CaseGrounds(s, BuildPhase, world, c, d)
    ensures d == GuardFailed ==> forall other :: !CaseGrounds(s, BuildPhase, world, c, other)
  {
    hide Stage, Carries, ChecksPass, SmokePasses;
    if !Passes(c.build) {
      return Continue;
    }
    var carries := ValidateRequirements(c.build.marker.value, c.m, s, world);
    var checks := ValidateChecks(s);
    if !carries || !checks {
      return GuardFailed;
    }
    d := if SmokePasses(s) then Ready else Continue;
  }

  method DecideAudit(s: Snapshot, world: World, c: Case) returns (d: Decision)
    requires Stage(s, AuditPhase, world, c) && LegalItems(c.m)
    ensures d != GuardFailed ==> CaseGrounds(s, AuditPhase, world, c, d)
    ensures d == GuardFailed ==> forall other :: !CaseGrounds(s, AuditPhase, world, c, other)
  {
    hide Stage, Carries, ChecksPass, SmokePasses, Independent;
    if !Passes(c.build) {
      return GuardFailed;
    }
    var carries := ValidateRequirements(c.build.marker.value, c.m, s, world);
    var checks := ValidateChecks(s);
    d := if carries && Independent(c.build, c.audit) && checks && SmokePasses(s) then AuditGuardPass else GuardFailed;
  }

  method DecideFinalize(s: Snapshot, world: World, c: Case) returns (d: Decision)
    requires Stage(s, FinalizePhase, world, c) && LegalItems(c.m) && s.pullRequest.Some?
    ensures d != GuardFailed ==> CaseGrounds(s, FinalizePhase, world, c, d)
    ensures d == GuardFailed ==> forall other :: !CaseGrounds(s, FinalizePhase, world, c, other)
  {
    hide Stage, Carries, ChecksPass, SmokePasses, Independent, Receipts, LiveEvidence, Reviewed;
    if !Passes(c.build) || !Passes(c.audit) {
      return GuardFailed;
    }
    var built := ValidateRequirements(c.build.marker.value, c.m, s, world);
    var audited := ValidateRequirements(c.audit.marker.value, c.m, s, world);
    var checks := ValidateChecks(s);
    if !built || !Independent(c.build, c.audit) || !audited || c.build.duplicates != [] || c.audit.duplicates != []
       || !checks || !SmokePasses(s) || !Reviewed(s) || !LiveEvidence(s)
    {
      return GuardFailed;
    }
    assert IsFinalizable(s, world, c);
    if c.w.policy.Auto? {
      return AutoAuthorized;
    }
    var receipts := CollectReceipts(s.comments);
    var receipt := Receipt(s, world, c);
    if receipt.GuardFailure? {
      return GuardFailed;
    }
    d := if receipt.value.None? then AwaitingHuman
         else if receipt.value.value.decision.Reject? then HumanRejected else HumanAuthorized;
  }

  /** The decision of a phase: the one that has grounds, and a failure exactly when none has. */
  method Evaluate(s: Snapshot, phase: Phase, world: World) returns (d: Decision)
    ensures Decides(s, phase, world, d)
  {
    hide Grounds, IsDescribed, IsAdmitted, Admitted, IsResolved, CaseGrounds, LegalItems;
    var described := Describe(s);
    if described.GuardFailure? {
      NoDescription(s, phase, world);
      return GuardFailed;
    }
    var (w, m) := described.value;
    if s.source.FromJson? {
      JsonGrounds(s, phase, world, w, m);
      return NonAuthoritative;
    }
    var admitted := Admit(s, phase, world, w);
    if !admitted {
      NotAdmitted(s, phase, world, w, m);
      return GuardFailed;
    }
    if s.pullRequest.None? {
      Bootstrap(s, phase, world, w, m);
      return if phase.BuildPhase? then Continue else GuardFailed;
    }
    var resolved := Resolve(s, phase, w, m);
    if resolved.GuardFailure? {
      NotResolved(s, phase, world, w, m);
      return GuardFailed;
    }
    var c := resolved.value;
    CaseIsStaged(s, phase, world, c);
    match phase {
      case BuildPhase => d := DecideBuild(s, world, c);
      case AuditPhase => d := DecideAudit(s, world, c);
      case FinalizePhase => d := DecideFinalize(s, world, c);
    }
    forall other: Decision ensures Grounds(s, phase, world, other) <==> CaseGrounds(s, phase, world, c, other) {
      GroundsOfCase(s, phase, world, c, other);
    }
  }

  lemma CaseIsStaged(s: Snapshot, phase: Phase, world: World, c: Case)
    requires IsDescribed(s, c.w, c.m) && !s.source.FromJson? && Admitted(s, phase, world, c.w) && IsResolved(s, phase, c)
    ensures Stage(s, phase, world, c) && LegalItems(c.m) && s.pullRequest.Some?
  {
    hide Admitted, DescribesBlock, DeclaresManifest;
    DeclaredItemsAreLegal(s.documents, c.m);
  }

  lemma NoStage(s: Snapshot, phase: Phase, world: World)
    requires forall c :: !Stage(s, phase, world, c)
    requires !s.source.FromJson? && (s.pullRequest.Some? || !phase.BuildPhase?)
    ensures forall other :: !Grounds(s, phase, world, other)
  {
    hide Stage, IsDescribed, IsAdmitted;
  }

  lemma NoDescription(s: Snapshot, phase: Phase, world: World)
    requires forall w, m :: !IsDescribed(s, w, m)
    ensures forall other :: !Grounds(s, phase, world, other)
  {
    hide IsDescribed, Admitted, IsResolved;
  }

  lemma JsonGrounds(s: Snapshot, phase: Phase, world: World, w: WorkBlock, m: AcceptanceManifest)
    requires s.source.FromJson? && IsDescribed(s, w, m)
    ensures Grounds(s, phase, world, NonAuthoritative)
  {
    hide IsDescribed;
  }

  lemma NotAdmitted(s: Snapshot, phase: Phase, world: World, w: WorkBlock, m: AcceptanceManifest)
    requires IsDescribed(s, w, m) && !s.source.FromJson? && !Admitted(s, phase, world, w)
    ensures forall other :: !Grounds(s, phase, world, other)
  {
    forall w', m' ensures !IsAdmitted(s, phase, world, w', m') {
      if IsDescribed(s, w', m') {
        OneDescription(s, w, m, w', m');
      }
    }
    hide IsDescribed, Admitted, IsResolved, IsAdmitted;
  }

  lemma Bootstrap(s: Snapshot, phase: Phase, world: World, w: WorkBlock, m: AcceptanceManifest)
    requires s.pullRequest.None? && IsDescribed(s, w, m) && !s.source.FromJson? && Admitted(s, phase, world, w)
    ensures Decides(s, phase, world, if phase.BuildPhase? then Continue else GuardFailed)
  {
    hide IsDescribed, Admitted;
    assert IsAdmitted(s, phase, world, w, m);
    StageHasPullRequest(s, phase, world);
  }

  lemma NotResolved(s: Snapshot, phase: Phase, world: World, w: WorkBlock, m: AcceptanceManifest)
    requires s.pullRequest.Some? && IsDescribed(s, w, m) && !s.source.FromJson?
    requires forall c: Case | c.w == w :: !IsResolved(s, phase, c)
    ensures forall other :: !Grounds(s, phase, world, other)
  {
    forall c ensures !Stage(s, phase, world, c) {
      if IsDescribed(s, c.w, c.m) {
        OneDescription(s, w, m, c.w, c.m);
      }
    }
    NoStage(s, phase, world);
  }
}

/** When each phase gives each decision, spelled out on the block, the comments and what GitHub reports. */
module DecisionMeaning {
  import opened Wrappers
  import opened Sequences
  import opened GuardText
  import opened MarkerText
  import opened Markers
  import opened Convergence
  import opened Manifest
  import opened Evidence
  import opened WorkBlock
  import opened Scope
  import opened ScopeCheck
  import opened Snapshot
  import opened Guard
  import opened GuardMeaning
  import B = BlockMeaning
  import J = ManifestMeaning
  import P = ScopeMeaning

  // ----- The target -----

  /** A remote base names its branch behind `origin/`. */
  predicate IsBranchOf(ref: string, branch: string) {
    if "origin/" <= ref then ref == "origin/" + branch else ref == branch
  }

  /** The issue is the one active block, and the pull request, if there is one, is its own. */
  ghost predicate TargetsBlock(s: Snapshot, w: WorkBlock) {
    && (s.activeIssues == None || s.activeIssues == Some(1))
    && s.issueOpen && "workflow:active" in s.labels
    && match s.pullRequest
       case None => s.openPullRequests == None || s.openPullRequests == Some(0)
       case Some(pr) =>
         && (s.openPullRequests == None || s.openPullRequests == Some(1))
         && pr.isOpen && pr.headBranch == w.branch && IsBranchOf(w.baseRef, pr.baseBranch)
         && pr.baseSha == w.baseSha && B.IsCommit(pr.headSha)
  }

  /** A goal review, where there is one, is valid and speaks of the base. */
  predicate ReviewFits(s: Snapshot, w: WorkBlock) {
    match s.goalReview case NoReview => true case InvalidReview => false case Review(sha) => sha == w.baseSha
  }

  ghost predicate Described(s: Snapshot, w: WorkBlock, m: AcceptanceManifest) {
    && TargetsBlock(s, w)
    && (forall i, j | 0 <= i < j < |s.declared| :: s.declared[i].0 != s.declared[j].0)
    && B.BlockReads(s.declared, w)
    && J.TheManifest(s.documents, m) && m.routeEffect == w.route && ReviewFits(s, w)
  }

  /** A governance writer shows the digests of nine authority documents at the base. */
  ghost predicate ShowsAuthority(s: Snapshot, w: WorkBlock, world: World) {
    w.writer == Governance ==>
      && s.authority.Some? && s.authority.value.baseSha == w.baseSha
      && s.authority.value.digests.Keys == {
           "AGENTS.md", "docs/development_protocol.md", ".agents/skills/plan/SKILL.md", ".agents/skills/build/SKILL.md",
           ".agents/skills/audit/SKILL.md", ".agents/skills/investment-block-flow/SKILL.md", ".agents/skills/ui/SKILL.md",
           ".agents/rules/investment-analyst-core.md", "scripts/check_workflow_guards.py"}
      && forall path | path in s.authority.value.digests ::
           world.baseDigest(path).Pass? && world.baseDigest(path).value == s.authority.value.digests[path]
  }

  /** A live snapshot has an authority for its block, and changes only what the block accepts. */
  ghost predicate LiveGrounds(s: Snapshot, phase: Phase, world: World, w: WorkBlock) {
    s.source == Live ==>
      && s.scope.Some? && ShowsAuthority(s, w, world)
      && exists a :: B.Grants(w, s.repository, phase, world.policies, a)
                     && P.Acceptable(s.lines, w, s.scope.value, a.standing.Some?)
  }

  lemma TargetMeans(s: Snapshot, w: WorkBlock)
    ensures TargetsBlock(s, w) <==> IsTarget(s, w)
  {
    if s.pullRequest.Some? {
      B.IdsMean(s.pullRequest.value.headSha);
      BranchMeans(w.baseRef, s.pullRequest.value.baseBranch);
    }
    hide BaseBranch, IsBranchOf, IsFullSha, B.IsCommit;
  }

  lemma BranchMeans(ref: string, branch: string)
    ensures IsBranchOf(ref, branch) <==> branch == BaseBranch(ref)
  {
    if ORIGIN <= ref {
      assert ref == ORIGIN + ref[|ORIGIN|..];
    }
  }

  lemma DescribedMeans(s: Snapshot, w: WorkBlock, m: AcceptanceManifest)
    ensures Described(s, w, m) <==> IsDescribed(s, w, m)
  {
    hide IsTarget, TargetsBlock, WorkBlockOf, B.BlockReads, DeclaresManifest, J.TheManifest;
    TargetMeans(s, w);
    J.ManifestMeans(s.documents, m);
    if NamesDistinct(s.declared) {
      B.BlockMeans(s.declared, w);
    }
  }

  lemma AuthorityShown(s: Snapshot, w: WorkBlock, world: World)
    ensures ShowsAuthority(s, w, world) <==> AuthoritySnapshotFits(s, w, world)
  {
  }

  lemma LiveMeans(s: Snapshot, phase: Phase, world: World, w: WorkBlock)
    requires DescribesBlock(s, w)
    ensures LiveGrounds(s, phase, world, w) <==> Admitted(s, phase, world, w)
  {
    hide ShowsAuthority, AuthoritySnapshotFits, WorkBlockOf, B.Grants, P.Acceptable, FinalizationAuthority, ScopeAccepted,
         IsTarget, NamesDistinct;
    AuthorityShown(s, w, world);
    forall a ensures FinalizationAuthority(w, s.repository, phase, world.policies) == Pass(a)
                <==> B.Grants(w, s.repository, phase, world.policies, a)
    {
      B.AuthorityMeans(s.declared, w, s.repository, phase, world.policies, a);
    }
    if s.scope.Some? {
      forall standing ensures ScopeAccepted(s.lines, w, s.scope.value, standing)
                         <==> P.Acceptable(s.lines, w, s.scope.value, standing)
      {
        P.ScopeIsExact(s.lines, w, s.scope.value, standing);
      }
    }
  }

  // ----- The markers -----

  /** The marker a role stands on: the one with the lowest id, provided the role speaks of the head. */
  ghost predicate Current(markers: seq<MarkerRecord>, role: Role, head: string, marker: Option<MarkerRecord>) {
    match marker
    case None => forall m | IsOf(markers, role, m) :: m.sha != head
    case Some(m) => m.sha == head && IsLowest(markers, role, m)
  }

  /** Where a phase stands: described, admitted, and both roles resolved to these markers. */
  ghost predicate Stands(
    s: Snapshot, phase: Phase, world: World, w: WorkBlock, m: AcceptanceManifest,
    build: Option<MarkerRecord>, audit: Option<MarkerRecord>)
  {
    && Described(s, w, m) && s.source != FromJson && LiveGrounds(s, phase, world, w)
    && s.pullRequest.Some? && AllMarkers(s.comments).Pass?
    && var head, markers := s.pullRequest.value.headSha, AllMarkers(s.comments).value;
       && Resolvable(markers, BuildRole, w.block, head, phase) && Current(markers, BuildRole, head, build)
       && Resolvable(markers, AuditRole, w.block, head, phase) && Current(markers, AuditRole, head, audit)
  }

  /** All comments can be read exactly if each of them can. */
  lemma {:induction false} AllAreRead(comments: seq<Comment>)
    ensures AllMarkers(comments).Pass? <==> forall c | c in comments :: MarkerOf(c).Pass?
  {
    hide MarkerOf;
    if comments != [] {
      var n := |comments| - 1;
      AllAreRead(comments[..n]);
      assert comments == comments[..n] + [comments[n]];
    }
  }

  lemma LowestIsOne(markers: seq<MarkerRecord>, role: Role, a: MarkerRecord, b: MarkerRecord)
    requires IsLowest(markers, role, a) && IsLowest(markers, role, b)
    ensures a == b
  {
    var i :| LowestAt(markers, role, i) && markers[i] == a;
    var j :| LowestAt(markers, role, j) && markers[j] == b;
    assert !(i < j) && !(j < i);
  }

  lemma LowestIsOf(markers: seq<MarkerRecord>, role: Role, m: MarkerRecord)
    requires IsLowest(markers, role, m)
    ensures IsOf(markers, role, m)
  {
    var i :| LowestAt(markers, role, i) && markers[i] == m;
  }

  lemma CurrentMeans(
    markers: seq<MarkerRecord>, role: Role, block: string, head: string, phase: Phase, marker: Option<MarkerRecord>)
    ensures Resolvable(markers, role, block, head, phase) && Current(markers, role, head, marker) <==>
              var r := ResolveMarkers(markers, role, block, head, phase);
              r.Pass? && r.value.marker == marker
  {
    hide ResolveMarkers, Resolvable, IsLowest, IsOf;
    ResolutionMeans(markers, role, block, head, phase);
    var r := ResolveMarkers(markers, role, block, head, phase);
    if r.Pass? {
      if marker.Some? && r.value.marker.Some? && IsLowest(markers, role, marker.value) {
        LowestIsOne(markers, role, marker.value, r.value.marker.value);
      }
      if r.value.marker.Some? {
        LowestIsOf(markers, role, r.value.marker.value);
        HeadIsShared(markers, role, block, head, phase, r.value.marker.value);
      }
      if marker.Some? && IsLowest(markers, role, marker.value) {
        LowestIsOf(markers, role, marker.value);
      }
    }
  }

  lemma HeadIsShared(
    markers: seq<MarkerRecord>, role: Role, block: string, head: string, phase: Phase, m: MarkerRecord)
    requires Resolvable(markers, role, block, head, phase) && IsOf(markers, role, m)
    ensures m.sha == head || forall x | IsOf(markers, role, x) :: x.sha != head
  {
    hide IsOf, AllSaySame, OnlyOne;
  }

  ghost predicate StageOf(
    s: Snapshot, phase: Phase, world: World, c: Case, w: WorkBlock, m: AcceptanceManifest,
    build: Option<MarkerRecord>, audit: Option<MarkerRecord>)
  {
    Stage(s, phase, world, c) && c.w == w && c.m == m && c.build.marker == build && c.audit.marker == audit
  }

  lemma StandsMeans(
    s: Snapshot, phase: Phase, world: World, w: WorkBlock, m: AcceptanceManifest,
    build: Option<MarkerRecord>, audit: Option<MarkerRecord>)
    ensures Stands(s, phase, world, w, m, build, audit) <==> exists c :: StageOf(s, phase, world, c, w, m, build, audit)
  {
    hide Described, DescribesBlock, DeclaresManifest, ManifestFits, LiveGrounds, Admitted, Resolvable, Current, ResolveMarkers,
         AllMarkers;
    DescribedMeans(s, w, m);
    if DescribesBlock(s, w) {
      LiveMeans(s, phase, world, w);
    }
    if s.pullRequest.Some? && AllMarkers(s.comments).Pass? {
      var head, markers := s.pullRequest.value.headSha, AllMarkers(s.comments).value;
      CurrentMeans(markers, BuildRole, w.block, head, phase, build);
      CurrentMeans(markers, AuditRole, w.block, head, phase, audit);
      if Stands(s, phase, world, w, m, build, audit) {
        var c := Case(w, m, ResolveMarkers(markers, BuildRole, w.block, head, phase).value,
                      ResolveMarkers(markers, AuditRole, w.block, head, phase).value);
        assert StageOf(s, phase, world, c, w, m, build, audit);
      }
    }
  }

  // ----- What is asked of the evidence -----

  /** The marker evidences the manifest, item by item, and every requirement is met. */
  ghost predicate Evidenced(marker: MarkerRecord, m: AcceptanceManifest, s: Snapshot, world: World) {
    && (marker.kind == BuildV2 || marker.kind == AuditV2)
    && Get(marker.fields, ManifestKey) == Some(world.digest(m))
    && world.decode(marker.payload).Pass? && EvidenceDocument(world.decode(marker.payload).value, m.items)
    && s.scope.Some? && J.AllMet(m, s, s.scope.value)
  }

  lemma EvidencedMeans(marker: MarkerRecord, m: AcceptanceManifest, s: Snapshot, world: World)
    ensures Evidenced(marker, m, s, world) <==> Carries(marker, m, s, world)
  {
    hide EvidenceDocument, J.AllMet, RequirementsMet, OneToOne, PayloadEntries;
    EvidenceMeansJson(world.decode(marker.payload), m.items);
    if s.scope.Some? {
      J.RequirementsMean(m, s, s.scope.value);
    }
  }

  /** A structured audit does not repeat the structured evidence of the build. */
  predicate Differs(build: MarkerRecord, audit: Option<MarkerRecord>) {
    audit.Some? && build.kind == BuildV2 && audit.value.kind == AuditV2 ==> build.payload != audit.value.payload
  }

  lemma DiffersMeans(s: Snapshot, phase: Phase, world: World, c: Case)
    requires Stage(s, phase, world, c) && c.build.marker.Some?
    ensures Differs(c.build.marker.value, c.audit.marker) <==> Independent(c.build, c.audit)
  {
    hide IsAdmitted, ResolveMarkers, AllMarkers, NormalizeLines, IsLowest, Resolvable;
    var head, markers := s.pullRequest.value.headSha, AllMarkers(s.comments).value;
    CurrentMeans(markers, BuildRole, c.w.block, head, phase, c.build.marker);
    CurrentMeans(markers, AuditRole, c.w.block, head, phase, c.audit.marker);
    CurrentFacts(s.comments, BuildRole, c.w.block, head, phase, c.build.marker);
    CurrentFacts(s.comments, AuditRole, c.w.block, head, phase, c.audit.marker);
  }

  lemma CurrentFacts(
    comments: seq<Comment>, role: Role, block: string, head: string, phase: Phase, marker: Option<MarkerRecord>)
    requires AllMarkers(comments).Pass? && Resolvable(AllMarkers(comments).value, role, block, head, phase)
    requires Current(AllMarkers(comments).value, role, head, marker)
    ensures marker.Some? ==>
              && marker.value.block == block && marker.value.sha == head
              && NormalizeLines(marker.value.payload) == marker.value.payload
  {
    hide AllMarkers, NormalizeLines, Active, IsLowest, AllSaySame, OnlyOne, IsOf;
    if marker.Some? {
      LowestIsOf(AllMarkers(comments).value, role, marker.value);
      ActiveIs(AllMarkers(comments).value, role, marker.value);
      RecordFacts(comments, marker.value, role);
    }
  }

  // ----- Build and audit -----

  ghost predicate BuildStands(
    s: Snapshot, phase: Phase, world: World, w: WorkBlock, m: AcceptanceManifest,
    build: MarkerRecord, audit: Option<MarkerRecord>)
  {
    && Stands(s, phase, world, w, m, Some(build), audit) && build.status == Passed && Evidenced(build, m, s, world)
    && J.QualityIsGreen(s)
  }

  lemma BuildStandsMeans(s: Snapshot, phase: Phase, world: World, w: WorkBlock, m: AcceptanceManifest,
                         build: MarkerRecord, audit: Option<MarkerRecord>)
    ensures BuildStands(s, phase, world, w, m, build, audit) <==>
              exists c :: StageOf(s, phase, world, c, w, m, Some(build), audit)
                          && Passes(c.build) && CarriedBy(c.build, c.m, s, world) && ChecksPass(s)
  {
    hide Stands, Stage, Evidenced, Carries, J.QualityIsGreen, ChecksPass, J.SmokeIsGreen;
    StandsMeans(s, phase, world, w, m, Some(build), audit);
    EvidencedMeans(build, m, s, world);
    J.GreenMeans(s);
    if c :| StageOf(s, phase, world, c, w, m, Some(build), audit) {
      assert Passes(c.build) <==> build.status == Passed;
      assert CarriedBy(c.build, c.m, s, world) <==> Carries(build, m, s, world);
    }
  }

  /** BUILD is ready: a PASS build marker at the head, evidenced, with green checks and a passing smoke. */
  lemma ReadyExactly(s: Snapshot, world: World)
    ensures Decides(s, BuildPhase, world, Ready) <==>
              J.SmokeIsGreen(s) && exists w, m, build, audit :: BuildStands(s, BuildPhase, world, w, m, build, audit)
  {
    hide Stage, BuildStands, Carries, ChecksPass, SmokePasses, J.QualityIsGreen, J.SmokeIsGreen;
    J.GreenMeans(s);
    if c :| IsReady(s, world, c) {
      BuildStandsMeans(s, BuildPhase, world, c.w, c.m, c.build.marker.value, c.audit.marker);
      assert StageOf(s, BuildPhase, world, c, c.w, c.m, Some(c.build.marker.value), c.audit.marker);
    }
    if w, m, build, audit :| BuildStands(s, BuildPhase, world, w, m, build, audit) {
      BuildStandsMeans(s, BuildPhase, world, w, m, build, audit);
      var c :| StageOf(s, BuildPhase, world, c, w, m, Some(build), audit)
               && Passes(c.build) && CarriedBy(c.build, c.m, s, world) && ChecksPass(s);
      assert J.SmokeIsGreen(s) ==> IsReady(s, world, c);
    }
  }

  /** AUDIT passes: what BUILD needs to be ready, in the audit phase, and an audit that is not a copy of the build. */
  lemma AuditExactly(s: Snapshot, world: World)
    ensures Decides(s, AuditPhase, world, AuditGuardPass) <==>
              J.SmokeIsGreen(s)
              && exists w, m, build, audit :: BuildStands(s, AuditPhase, world, w, m, build, audit) && Differs(build, audit)
  {
    hide Stage, BuildStands, Carries, ChecksPass, SmokePasses, J.QualityIsGreen, J.SmokeIsGreen, Independent, Differs;
    J.GreenMeans(s);
    if c :| IsAuditable(s, world, c) {
      BuildStandsMeans(s, AuditPhase, world, c.w, c.m, c.build.marker.value, c.audit.marker);
      assert StageOf(s, AuditPhase, world, c, c.w, c.m, Some(c.build.marker.value), c.audit.marker);
      DiffersMeans(s, AuditPhase, world, c);
    }
    if w, m, build, audit :| BuildStands(s, AuditPhase, world, w, m, build, audit) && Differs(build, audit) {
      BuildStandsMeans(s, AuditPhase, world, w, m, build, audit);
      var c :| StageOf(s, AuditPhase, world, c, w, m, Some(build), audit)
               && Passes(c.build) && CarriedBy(c.build, c.m, s, world) && ChecksPass(s);
      DiffersMeans(s, AuditPhase, world, c);
      assert J.SmokeIsGreen(s) ==> IsAuditable(s, world, c);
    }
  }

  ghost predicate NotYet(s: Snapshot, world: World, w: WorkBlock, m: AcceptanceManifest, build: Option<MarkerRecord>,
                         audit: Option<MarkerRecord>)
  {
    Stands(s, BuildPhase, world, w, m, build, audit) && (build == None || build.value.status != Passed)
  }

  ghost predicate MayGoOn(s: Snapshot, world: World) {
    if s.pullRequest == None then
      exists w, m :: Described(s, w, m) && s.source != FromJson && LiveGrounds(s, BuildPhase, world, w)
    else
      || (exists w, m, build, audit :: NotYet(s, world, w, m, build, audit))
      || (!J.SmokeIsGreen(s) && exists w, m, build, audit :: BuildStands(s, BuildPhase, world, w, m, build, audit))
  }

  lemma AdmittedMeans(s: Snapshot, phase: Phase, world: World, w: WorkBlock, m: AcceptanceManifest)
    ensures IsAdmitted(s, phase, world, w, m) <==>
              Described(s, w, m) && s.source != FromJson && LiveGrounds(s, phase, world, w)
  {
    hide Described, DescribesBlock, DeclaresManifest, ManifestFits, LiveGrounds, Admitted;
    DescribedMeans(s, w, m);
    if DescribesBlock(s, w) {
      LiveMeans(s, phase, world, w);
    }
  }

  /** BUILD goes on: before there is a pull request or a PASS marker, or where only the smoke is missing. */
  lemma ContinueExactly(s: Snapshot, world: World)
    ensures Decides(s, BuildPhase, world, Continue) <==> MayGoOn(s, world)
  {
    hide Stage, BuildStands, Carries, ChecksPass, SmokePasses, J.QualityIsGreen, J.SmokeIsGreen, IsAdmitted, Described,
         LiveGrounds, Stands;
    J.GreenMeans(s);
    if s.pullRequest.None? {
      forall w, m ensures IsAdmitted(s, BuildPhase, world, w, m) <==>
          Described(s, w, m) && s.source != FromJson && LiveGrounds(s, BuildPhase, world, w)
      {
        AdmittedMeans(s, BuildPhase, world, w, m);
      }
    } else {
      if c :| Stage(s, BuildPhase, world, c)
              && (!Passes(c.build) || (CarriedBy(c.build, c.m, s, world) && ChecksPass(s) && !SmokePasses(s)))
      {
        CaseGoesOn(s, world, c);
      }
      if w, m, build, audit :| NotYet(s, world, w, m, build, audit) {
        StandsMeans(s, BuildPhase, world, w, m, build, audit);
        var c :| StageOf(s, BuildPhase, world, c, w, m, build, audit);
        assert !Passes(c.build);
      }
      if w, m, build, audit :| BuildStands(s, BuildPhase, world, w, m, build, audit) {
        BuildStandsMeans(s, BuildPhase, world, w, m, build, audit);
      }
    }
  }

  lemma CaseGoesOn(s: Snapshot, world: World, c: Case)
    requires s.pullRequest.Some? && Stage(s, BuildPhase, world, c)
    requires !Passes(c.build) || (CarriedBy(c.build, c.m, s, world) && ChecksPass(s) && !SmokePasses(s))
    ensures MayGoOn(s, world)
  {
    hide Stage, BuildStands, Carries, ChecksPass, SmokePasses, J.QualityIsGreen, J.SmokeIsGreen, Stands;
    J.GreenMeans(s);
    assert StageOf(s, BuildPhase, world, c, c.w, c.m, c.build.marker, c.audit.marker);
    StandsMeans(s, BuildPhase, world, c.w, c.m, c.build.marker, c.audit.marker);
    if Passes(c.build) {
      BuildStandsMeans(s, BuildPhase, world, c.w, c.m, c.build.marker.value, c.audit.marker);
    } else {
      assert NotYet(s, world, c.w, c.m, c.build.marker, c.audit.marker);
    }
  }

  // ----- Finalize -----

  /** All that is asked before it matters who decides. */
  ghost predicate FinalStands(
    s: Snapshot, world: World, w: WorkBlock, m: AcceptanceManifest, build: MarkerRecord, audit: MarkerRecord)
  {
    && Described(s, w, m) && s.source == Live && LiveGrounds(s, FinalizePhase, world, w)
    && s.pullRequest.Some? && AllMarkers(s.comments).Pass?
    && SolePass(AllMarkers(s.comments).value, BuildRole, build, w.block, s.pullRequest.value.headSha)
    && SolePass(AllMarkers(s.comments).value, AuditRole, audit, w.block, s.pullRequest.value.headSha)
    && build.kind == BuildV2 && Evidenced(build, m, s, world)
    && audit.kind == AuditV2 && Evidenced(audit, m, s, world)
    && build.payload != audit.payload
    && J.QualityIsGreen(s) && J.SmokeIsGreen(s)
    && s.requestedChanges == Some(false) && s.openThreads == Some(0)
    && s.mergeable == Some(true) && s.mergeability == Some("clean") && s.baseProtected == Some(true)
    && (s.permission == Some("ADMIN") || s.permission == Some("MAINTAIN") || s.permission == Some("WRITE"))
  }

  /** The one receipt of the thread names block, head and manifest, and came after the audit. */
  ghost predicate HumanSays(
    s: Snapshot, block: string, head: string, digest: string, audit: MarkerRecord, decision: HumanDecision)
  {
    exists i, r :: OnlyReceipt(s.comments, i, r) && Answers(r, block, head, digest, audit) && r.decision == decision
  }

  predicate Answers(r: HumanReceipt, block: string, head: string, digest: string, audit: MarkerRecord) {
    r.block == block && r.sha == head && r.manifestDigest == digest && audit.commentId < r.commentId
  }

  /** Who decides, and what: AUTO by itself, HUMAN by the receipt, or nobody yet. */
  ghost predicate FinalSays(
    s: Snapshot, world: World, w: WorkBlock, m: AcceptanceManifest, build: MarkerRecord, audit: MarkerRecord, d: Decision)
  {
    && FinalStands(s, world, w, m, build, audit)
    && var head, digest := s.pullRequest.value.headSha, world.digest(m);
       match d
       case AutoAuthorized => w.policy == Auto
       case HumanAuthorized => w.policy == Human && HumanSays(s, w.block, head, digest, audit, Approve)
       case HumanRejected => w.policy == Human && HumanSays(s, w.block, head, digest, audit, Reject)
       case AwaitingHuman => w.policy == Human && forall c | c in s.comments :: HumanReceiptOf(c) == Pass(None)
       case _ => false
  }

  lemma FinalStandsMeans(
    s: Snapshot, world: World, w: WorkBlock, m: AcceptanceManifest, build: MarkerRecord, audit: MarkerRecord)
    ensures FinalStands(s, world, w, m, build, audit) <==> FinalizeGrounds(s, world, w, m, build, audit)
  {
    hide Described, DescribesBlock, DeclaresManifest, ManifestFits, LiveGrounds, Admitted, AllMarkers, SolePass, Evidenced,
         J.QualityIsGreen, J.SmokeIsGreen, ChecksPass, SmokePasses;
    DescribedMeans(s, w, m);
    if DescribesBlock(s, w) {
      LiveMeans(s, FinalizePhase, world, w);
    }
    EvidencedMeans(build, m, s, world);
    EvidencedMeans(audit, m, s, world);
    if Carries(build, m, s, world) {
      CarriesMeans(build, m, s, world);
    }
    if Carries(audit, m, s, world) {
      CarriesMeans(audit, m, s, world);
    }
    hide Carries;
    J.GreenMeans(s);
  }

  lemma FinalSaysMeans(
    s: Snapshot, world: World, w: WorkBlock, m: AcceptanceManifest, build: MarkerRecord, audit: MarkerRecord, d: Decision)
    ensures FinalSays(s, world, w, m, build, audit, d) <==> FinalCase(s, world, w, m, build, audit, d)
  {
    hide FinalStands, FinalizeGrounds, Receipts, HumanReceiptOf, OnlyReceipt;
    FinalStandsMeans(s, world, w, m, build, audit);
    ReceiptsMean(s.comments);
    if FinalizeGrounds(s, world, w, m, build, audit) {
      GroundsHavePullRequest(s, world, w, m, build, audit);
    }
  }

  /** Finalize decides `d` if and only if all of it stands and `d` is what is said. */
  lemma FinalExactly(s: Snapshot, world: World, d: Decision)
    requires IsFinalDecision(d)
    ensures Decides(s, FinalizePhase, world, d) <==> exists w, m, build, audit :: FinalSays(s, world, w, m, build, audit, d)
  {
    hide FinalSays, FinalCase, Decides;
    FinalizeExactly(s, world, d);
    forall w, m, build, audit ensures FinalSays(s, world, w, m, build, audit, d) <==> FinalCase(s, world, w, m, build, audit, d) {
      FinalSaysMeans(s, world, w, m, build, audit, d);
    }
  }
}

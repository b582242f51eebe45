/** What the guard observes, and the conditions its phases check on it. */
module Snapshot {
  import opened Wrappers
  import opened Sequences
  import opened GuardText
  import opened MarkerText
  import opened Markers
  import opened Manifest
  import opened Evidence
  import opened WorkBlock
  import opened Scope
  import opened ScopeCheck

  datatype Source = Live | FromJson | Unknown

  datatype GoalReview = NoReview | InvalidReview | Review(codeSha: string)

  datatype PullRequest = PullRequest(
    isOpen: bool, headBranch: string, headSha: string, baseBranch: string, baseSha: string)

  datatype Check = Check(name: string, status: string, conclusion: string)

  datatype Smoke = Smoke(status: Option<string>, evidence: string)

  datatype AuthoritySnapshot = AuthoritySnapshot(baseSha: string, digests: map<string, string>)

  datatype Snapshot = Snapshot(
    activeIssues: Option<nat>, issueOpen: bool, labels: set<string>,
    declared: seq<Declaration>, documents: seq<Guarded<Json>>, lines: seq<Line>, goalReview: GoalReview,
    pullRequest: Option<PullRequest>, openPullRequests: Option<nat>,
    comments: seq<Comment>, checks: seq<Check>, smoke: Smoke,
    requestedChanges: Option<bool>, openThreads: Option<nat>,
    source: Source, mergeable: Option<bool>, mergeability: Option<string>, permission: Option<string>,
    baseProtected: Option<bool>, scope: Option<ScopeEvidence>, authority: Option<AuthoritySnapshot>,
    repository: Option<string>)

  /** Reads of git and GitHub, digests and JSON decoding, as the guard finds them. */
  datatype World = World(
    policies: Policies,
    digest: AcceptanceManifest -> string,
    decode: string -> Guarded<Json>,
    baseDigest: string -> Guarded<string>)

  // ----- Target -----

  const ACTIVE_LABEL := "workflow:active"
  const ORIGIN := "origin/"

  function BaseBranch(ref: string): string {
    if ORIGIN <= ref then ref[|ORIGIN|..] else ref
  }

  predicate IsTarget(s: Snapshot, w: WorkBlock) {
    && (s.activeIssues.Some? ==> s.activeIssues.value == 1)
    && s.issueOpen && ACTIVE_LABEL in s.labels
    && (if s.pullRequest.None? then s.openPullRequests.Some? ==> s.openPullRequests.value == 0
        else
          var pr := s.pullRequest.value;
          && (s.openPullRequests.Some? ==> s.openPullRequests.value == 1)
          && pr.isOpen && pr.headBranch == w.branch && pr.baseBranch == BaseBranch(w.baseRef)
          && pr.baseSha == w.baseSha && IsFullSha(pr.headSha))
  }

  ghost predicate DescribesBlock(s: Snapshot, w: WorkBlock) {
    NamesDistinct(s.declared) && WorkBlockOf(s.declared) == Pass(w) && IsTarget(s, w)
  }

  predicate ManifestFits(s: Snapshot, w: WorkBlock, m: AcceptanceManifest) {
    && m.routeEffect == w.route && !s.goalReview.InvalidReview?
    && (s.goalReview.Review? ==> s.goalReview.codeSha == w.baseSha)
  }

  // ----- Live admission -----

  const AUTHORITY_PATHS := {
    "AGENTS.md", "docs/development_protocol.md", ".agents/skills/plan/SKILL.md", ".agents/skills/build/SKILL.md",
    ".agents/skills/audit/SKILL.md", ".agents/skills/investment-block-flow/SKILL.md", ".agents/skills/ui/SKILL.md",
    ".agents/rules/investment-analyst-core.md", "scripts/check_workflow_guards.py"}

  predicate AuthoritySnapshotFits(s: Snapshot, w: WorkBlock, world: World) {
    w.writer.Governance? ==>
      && s.authority.Some? && s.authority.value.baseSha == w.baseSha
      && s.authority.value.digests.Keys == AUTHORITY_PATHS
      && forall path | path in s.authority.value.digests ::
           world.baseDigest(path) == Pass(s.authority.value.digests[path])
  }

  ghost predicate ScopeAccepted(lines: seq<Line>, w: WorkBlock, evidence: ScopeEvidence, standing: bool) {
    WellDeclared(lines) && exists scope :: Describes(scope, lines) && InScope(w, scope, evidence, standing)
  }

  /** A live snapshot must bring scope evidence, a finalization authority and an accepted scope. */
  ghost predicate Admitted(s: Snapshot, phase: Phase, world: World, w: WorkBlock) {
    s.source.Live? ==>
      && s.scope.Some? && AuthoritySnapshotFits(s, w, world)
      && var a := FinalizationAuthority(w, s.repository, phase, world.policies);
         a.Pass? && ScopeAccepted(s.lines, w, s.scope.value, a.value.standing.Some?)
  }

  lemma ScopeDescribedOnce(a: DeclaredScope, b: DeclaredScope, lines: seq<Line>)
    requires Describes(a, lines) && Describes(b, lines)
    ensures a == b
  {
    hide Holds;
    forall part ensures Table(a, part) == Table(b, part) {
      SameTable(Table(a, part), Table(b, part), lines, part);
    }
    assert Table(a, Allowed) == a.allowlist && Table(b, Allowed) == b.allowlist;
    assert Table(a, Checkpoint) == a.checkpoint && Table(b, Checkpoint) == b.checkpoint;
    assert Table(a, Immutable) == a.immutable && Table(b, Immutable) == b.immutable;
    assert Table(a, Denied) == a.prohibited && Table(b, Denied) == b.prohibited;
  }

  lemma SameTable(a: map<string, string>, b: map<string, string>, lines: seq<Line>, part: Part)
    ensures Holds(a, lines, part) && Holds(b, lines, part) ==> a == b
  {
    hide Declared;
    if Holds(a, lines, part) && Holds(b, lines, part) {
      forall path | path in a ensures path in b && b[path] == a[path] {
        assert Declared(lines, part, path, a[path]);
      }
      forall path | path in b ensures path in a {
        assert Declared(lines, part, path, b[path]);
      }
      assert a == b;
    }
  }

  // ----- Checks -----

  const QUALITY := "Python 3.12 quality"

  predicate ChecksPass(s: Snapshot) {
    && (exists i | 0 <= i < |s.checks| :: s.checks[i].name == QUALITY)
    && forall i | 0 <= i < |s.checks| && s.checks[i].name == QUALITY ::
         s.checks[i].status == "completed" && s.checks[i].conclusion == "success"
  }

  predicate SmokePasses(s: Snapshot) {
    s.smoke.status == Some("PASS") && s.smoke.evidence != ""
  }

  /** The required gate: present, terminal, green. */
  method ValidateChecks(s: Snapshot) returns (ok: bool)
    ensures ok <==> ChecksPass(s)
  {
    var found := false;
    ok := true;
    for i := 0 to |s.checks|
      invariant found <==> exists k :: 0 <= k < i && s.checks[k].name == QUALITY
      invariant ok <==> forall k | 0 <= k < i && s.checks[k].name == QUALITY ::
                          s.checks[k].status == "completed" && s.checks[k].conclusion == "success"
    {
      if s.checks[i].name == QUALITY {
        found := true;
        if s.checks[i].status != "completed" || s.checks[i].conclusion != "success" {
          ok := false;
        }
      }
    }
    ok := ok && found;
  }

  // ----- Requirements -----

  function Changed(evidence: ScopeEvidence): set<string> {
    Elements(Paths(evidence.changes))
  }

  function RouteName(route: RouteEffect): string {
    match route case NoEffect => "NONE" case Advances => "ADVANCES" case Completes => "COMPLETES"
  }

  /** The position of the last colon. */
  function LastColon(s: string): Option<nat> {
    if s == "" then None else if s[|s| - 1] == ':' then Some(|s| - 1) else LastColon(s[..|s| - 1])
  }

  function RowsOf(rows: seq<Row>, item: string): seq<Row> {
    Filter((row: Row) => row.item == item, rows)
  }

  function NextRows(rows: seq<Row>): seq<Row> {
    Filter((row: Row) => row.state == "NEXT", rows)
  }

  /** `item:STATE` names the block's effect, and the route document at the head agrees with it. */
  predicate TransitionHolds(value: string, m: AcceptanceManifest, evidence: ScopeEvidence) {
    var k := LastColon(value);
    && k.Some? && 0 < k.value < |value| && !m.routeEffect.NoEffect?
    && value[k.value + 1..] == RouteName(m.routeEffect)
    && ROUTE_PLAN in Changed(evidence) && evidence.route.Some?
    && var rows := RowsOf(evidence.route.value, value[..k.value]);
       |rows| == 1
       && if m.routeEffect.Completes? then rows[0].state == "DONE" && |NextRows(evidence.route.value)| == 1
          else rows[0].state != "DONE"
  }

  predicate RequirementMet(r: Requirement, m: AcceptanceManifest, s: Snapshot, evidence: ScopeEvidence) {
    match r.kind
    case ChangedPathKind => r.value in Changed(evidence)
    case PresentPathKind => r.value in evidence.present
    case Ci => r.value == QUALITY && ChecksPass(s)
    case SmokeKind => SmokePasses(s)
    case RouteTransition => TransitionHolds(r.value, m, evidence)
    case FocusedTest => true
    case LiveProbe => true
  }

  predicate ItemMet(item: Item, m: AcceptanceManifest, s: Snapshot, evidence: ScopeEvidence) {
    forall j | 0 <= j < |item.requirements| ::
      RequirementOf(item.requirements[j]).Pass?
      && RequirementMet(RequirementOf(item.requirements[j]).value, m, s, evidence)
  }

  predicate IsTransition(text: string) {
    RequirementOf(text).Pass? && RequirementOf(text).value.kind.RouteTransition?
  }

  predicate NamesTransition(m: AcceptanceManifest) {
    exists i | 0 <= i < |m.items| ::
      exists j | 0 <= j < |m.items[i].requirements| :: IsTransition(m.items[i].requirements[j])
  }

  predicate RequirementsMet(m: AcceptanceManifest, s: Snapshot, evidence: ScopeEvidence) {
    && (forall i | 0 <= i < |m.items| :: ItemMet(m.items[i], m, s, evidence))
    && (m.routeEffect.NoEffect? || NamesTransition(m))
  }

  /** A marker carries the manifest: structured evidence for it, every requirement met. */
  ghost predicate Carries(marker: MarkerRecord, m: AcceptanceManifest, s: Snapshot, world: World) {
    && Evidences(marker, m, world.digest(m), world.decode(marker.payload))
    && s.scope.Some? && RequirementsMet(m, s, s.scope.value)
  }

  ghost predicate LegalItems(m: AcceptanceManifest) {
    && DistinctItems(m.items)
    && forall i, j | 0 <= i < |m.items| && 0 <= j < |m.items[i].requirements| ::
         RequirementOf(m.items[i].requirements[j]).Pass?
  }

  lemma DeclaredItemsAreLegal(documents: seq<Guarded<Json>>, m: AcceptanceManifest)
    requires DeclaresManifest(documents, m)
    ensures LegalItems(m)
  {
  }

  method RequirementsOfItem(item: Item, m: AcceptanceManifest, s: Snapshot, evidence: ScopeEvidence)
    returns (ok: bool)
    requires forall j | 0 <= j < |item.requirements| :: RequirementOf(item.requirements[j]).Pass?
    ensures ok <==> ItemMet(item, m, s, evidence)
  {
    hide RequirementMet, RequirementOf;
    for j := 0 to |item.requirements|
      invariant forall k | 0 <= k < j :: RequirementMet(RequirementOf(item.requirements[k]).value, m, s, evidence)
    {
      if !RequirementMet(RequirementOf(item.requirements[j]).value, m, s, evidence) {
        return false;
      }
    }
    ok := true;
  }

  /** The evidence of a marker, then every requirement of every item. */
  method ValidateRequirements(marker: MarkerRecord, m: AcceptanceManifest, s: Snapshot, world: World)
    returns (ok: bool)
    requires LegalItems(m)
    ensures ok <==> Carries(marker, m, s, world)
  {
    hide Evidences, ItemMet, RequirementOf;
    var evidence := MarkerEvidence(marker, m, world.digest(m), world.decode(marker.payload));
    if evidence.GuardFailure? || s.scope.None? {
      return false;
    }
    for i := 0 to |m.items|
      invariant forall k | 0 <= k < i :: ItemMet(m.items[k], m, s, s.scope.value)
    {
      var met := RequirementsOfItem(m.items[i], m, s, s.scope.value);
      if !met {
        return false;
      }
    }
    ok := m.routeEffect.NoEffect? || NamesTransition(m);
  }

  // ----- Finalize -----

  predicate LiveEvidence(s: Snapshot) {
    && s.source.Live? && s.mergeable == Some(true) && s.mergeability == Some("clean")
    && s.permission.Some? && s.permission.value in {"ADMIN", "MAINTAIN", "WRITE"}
    && s.baseProtected == Some(true)
  }

  predicate Reviewed(s: Snapshot) {
    s.requestedChanges == Some(false) && s.openThreads == Some(0)
  }

  function Receipts(comments: seq<Comment>): Guarded<seq<HumanReceipt>> {
    if comments == [] then Pass([])
    else
      var front :- Receipts(comments[..|comments| - 1]);
      var last :- HumanReceiptOf(comments[|comments| - 1]);
      Pass(if last.Some? then front + [last.value] else front)
  }

  /** The only receipt, provided it speaks of this head and manifest and came after the audit marker. */
  function ResolveReceipt(
    comments: seq<Comment>, block: string, head: string, digest: string, audit: Option<MarkerRecord>)
    : Guarded<Option<HumanReceipt>>
  {
    var receipts :- Receipts(comments);
    if receipts == [] then Pass(None)
    else
      var _ :- Need(|receipts| == 1);
      var r := receipts[0];
      var _ :- Need(r.block == block && r.sha == head && r.manifestDigest == digest);
      var _ :- Need(audit.Some? && audit.value.commentId < r.commentId);
      Pass(Some(r))
  }

  method CollectReceipts(comments: seq<Comment>) returns (r: Guarded<seq<HumanReceipt>>)
    ensures r == Receipts(comments)
  {
    hide HumanReceiptOf;
    var receipts: seq<HumanReceipt> := [];
    for i := 0 to |comments|
      invariant Receipts(comments[..i]) == Pass(receipts)
    {
      assert comments[..i + 1][..i] == comments[..i];
      var receipt := HumanReceiptOf(comments[i]);
      if receipt.GuardFailure? {
        ReceiptFailureSpreads(comments, i + 1);
        return GuardFailure;
      }
      if receipt.value.Some? {
        receipts := receipts + [receipt.value.value];
      }
    }
    assert comments[..|comments|] == comments;
    r := Pass(receipts);
  }

  lemma {:induction false} ReceiptFailureSpreads(comments: seq<Comment>, n: nat)
    requires n <= |comments| && Receipts(comments[..n]) == GuardFailure
    ensures Receipts(comments) == GuardFailure
    decreases |comments| - n
  {
    if n == |comments| {
      assert comments[..n] == comments;
    } else {
      assert comments[..n + 1][..n] == comments[..n];
      ReceiptFailureSpreads(comments, n + 1);
    }
  }

  lemma {:induction false} SilentReceipts(comments: seq<Comment>)
    requires forall j | 0 <= j < |comments| :: HumanReceiptOf(comments[j]) == Pass(None)
    ensures Receipts(comments) == Pass([])
  {
    hide HumanReceiptOf;
    if comments != [] {
      SilentReceipts(comments[..|comments| - 1]);
    }
  }

  lemma {:induction false} ReceiptsOfOne(comments: seq<Comment>, i: nat)
    requires i < |comments|
    requires forall j | 0 <= j < |comments| && j != i :: HumanReceiptOf(comments[j]) == Pass(None)
    ensures HumanReceiptOf(comments[i]).GuardFailure? ==> Receipts(comments).GuardFailure?
    ensures forall r :: HumanReceiptOf(comments[i]) == Pass(Some(r)) ==> Receipts(comments) == Pass([r])
  {
    hide HumanReceiptOf;
    var n := |comments| - 1;
    assert forall j | 0 <= j < n :: comments[..n][j] == comments[j];
    if i == n {
      SilentReceipts(comments[..n]);
      forall r | HumanReceiptOf(comments[i]) == Pass(Some(r)) ensures Receipts(comments) == Pass([r]) {
        assert [] + [r] == [r];
      }
    } else {
      ReceiptsOfOne(comments[..n], i);
    }
  }

  lemma {:induction false} NoReceipts(comments: seq<Comment>)
    requires Receipts(comments) == Pass([])
    ensures forall j | 0 <= j < |comments| :: HumanReceiptOf(comments[j]) == Pass(None)
  {
    hide HumanReceiptOf;
    if comments != [] {
      var n := |comments| - 1;
      NoReceipts(comments[..n]);
      assert forall j | 0 <= j < n :: comments[..n][j] == comments[j];
    }
  }

  /** Comment `i` is the receipt `r`, and no other comment is one. */
  ghost predicate OnlyReceipt(comments: seq<Comment>, i: int, r: HumanReceipt) {
    && 0 <= i < |comments| && HumanReceiptOf(comments[i]) == Pass(Some(r))
    && forall j | 0 <= j < |comments| && j != i :: HumanReceiptOf(comments[j]) == Pass(None)
  }

  lemma {:induction false} OneReceiptIs(comments: seq<Comment>, r: HumanReceipt)
    requires Receipts(comments) == Pass([r])
    ensures exists i :: OnlyReceipt(comments, i, r)
  {
    hide HumanReceiptOf;
    var n := |comments| - 1;
    var front, last := Receipts(comments[..n]), HumanReceiptOf(comments[n]);
    assert forall j | 0 <= j < n :: comments[..n][j] == comments[j];
    if last.value.Some? {
      assert front.value == (front.value + [last.value.value])[..|front.value|] == [];
      NoReceipts(comments[..n]);
      assert OnlyReceipt(comments, n, r);
    } else {
      OneReceiptIs(comments[..n], r);
      var i :| OnlyReceipt(comments[..n], i, r);
      assert OnlyReceipt(comments, i, r);
    }
  }

  /** The receipts of a thread, comment by comment. */
  lemma ReceiptsMean(comments: seq<Comment>)
    ensures Receipts(comments) == Pass([]) <==> forall c | c in comments :: HumanReceiptOf(c) == Pass(None)
    ensures forall r :: Receipts(comments) == Pass([r]) <==> exists i :: OnlyReceipt(comments, i, r)
  {
    hide HumanReceiptOf, Receipts;
    if Receipts(comments) == Pass([]) {
      NoReceipts(comments);
    }
    if forall c | c in comments :: HumanReceiptOf(c) == Pass(None) {
      SilentReceipts(comments);
    }
    forall r ensures Receipts(comments) == Pass([r]) <==> exists i :: OnlyReceipt(comments, i, r) {
      if Receipts(comments) == Pass([r]) {
        OneReceiptIs(comments, r);
      }
      if i :| OnlyReceipt(comments, i, r) {
        ReceiptsOfOne(comments, i);
      }
    }
  }
}

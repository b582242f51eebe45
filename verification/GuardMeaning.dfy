/** What the guard's decisions mean, and how they relate across phases. */
module GuardMeaning {
  import opened Wrappers
  import opened Sequences
  import opened GuardText
  import opened MarkerText
  import opened Markers
  import opened Reconciliation
  import opened Convergence
  import opened Manifest
  import opened Evidence
  import opened WorkBlock
  import opened Scope
  import opened ScopeCheck
  import opened Snapshot
  import opened Guard

  // ----- Later phases only add conditions -----

  predicate IsFinalDecision(d: Decision) {
    d.AwaitingHuman? || d.HumanRejected? || d.HumanAuthorized? || d.AutoAuthorized?
  }

  lemma LaterAuthority(w: WorkBlock, repository: Option<string>, later: Phase, earlier: Phase, policies: Policies)
    requires FinalizationAuthority(w, repository, later, policies).Pass?
    requires later.FinalizePhase? || (later.AuditPhase? && !earlier.FinalizePhase?)
    ensures FinalizationAuthority(w, repository, earlier, policies).Pass?
    ensures FinalizationAuthority(w, repository, later, policies).value.standing.Some?
       <==> FinalizationAuthority(w, repository, earlier, policies).value.standing.Some?
  {
    hide FirstStanding, FirstLegacy, StandingBinds, LegacyBinds, IsFullSha;
  }

  lemma LaterResolution(ms: seq<MarkerRecord>, role: Role, block: string, head: string, later: Phase, earlier: Phase)
    requires ResolveMarkers(ms, role, block, head, later).Pass?
    requires later.FinalizePhase? || (later.AuditPhase? && !earlier.FinalizePhase?)
    ensures ResolveMarkers(ms, role, block, head, earlier) == ResolveMarkers(ms, role, block, head, later)
  {
    hide Active, AtHead, Behind, ResolveCurrent, Equivalent, Canonical, Duplicates;
  }

  lemma LaterAdmission(s: Snapshot, later: Phase, earlier: Phase, world: World, w: WorkBlock)
    requires Admitted(s, later, world, w)
    requires later.FinalizePhase? || (later.AuditPhase? && !earlier.FinalizePhase?)
    ensures Admitted(s, earlier, world, w)
  {
    hide FinalizationAuthority, ScopeAccepted, AuthoritySnapshotFits;
    if s.source.Live? {
      LaterAuthority(w, s.repository, later, earlier, world.policies);
    }
  }

  lemma LaterStage(s: Snapshot, later: Phase, earlier: Phase, world: World, c: Case)
    requires Stage(s, later, world, c)
    requires later.FinalizePhase? || (later.AuditPhase? && !earlier.FinalizePhase?)
    ensures Stage(s, earlier, world, c)
  {
    hide IsDescribed, Admitted, ResolveMarkers, AllMarkers;
    LaterAdmission(s, later, earlier, world, c.w);
    var head := s.pullRequest.value.headSha;
    LaterResolution(AllMarkers(s.comments).value, BuildRole, c.w.block, head, later, earlier);
    LaterResolution(AllMarkers(s.comments).value, AuditRole, c.w.block, head, later, earlier);
  }

  /**
   * On one snapshot, whatever finalize decides short of a failure, audit passes; and where audit passes,
   * BUILD is ready, although marker resolution and authority are checked differently in each phase.
   */
  lemma PhasesAreMonotone(s: Snapshot, world: World, final: Decision)
    ensures IsFinalDecision(final) && Decides(s, FinalizePhase, world, final) ==>
              Decides(s, AuditPhase, world, AuditGuardPass)
    ensures Decides(s, AuditPhase, world, AuditGuardPass) ==> Decides(s, BuildPhase, world, Ready)
  {
    hide Stage, CarriedBy, Independent, ChecksPass, SmokePasses, Passes, Receipt, LiveEvidence, Reviewed;
    if IsFinalDecision(final) && Decides(s, FinalizePhase, world, final) {
      var c :| Finalizes(s, world, c, final);
      LaterStage(s, FinalizePhase, AuditPhase, world, c);
      assert IsAuditable(s, world, c);
    }
    if Decides(s, AuditPhase, world, AuditGuardPass) {
      var c :| IsAuditable(s, world, c);
      LaterStage(s, AuditPhase, BuildPhase, world, c);
      assert IsReady(s, world, c);
    }
  }

  /** A snapshot read from JSON never yields an authoritative decision, in any phase. */
  lemma JsonIsNeverAuthoritative(s: Snapshot, phase: Phase, world: World, d: Decision)
    requires s.source.FromJson? && Decides(s, phase, world, d)
    ensures d == NonAuthoritative || d == GuardFailed
  {
    hide Stage, IsAdmitted, IsDescribed;
    JsonIsNotAdmitted(s, phase, world);
  }

  // ----- Finalize, spelled out -----

  /** The first record of the role in the thread. */
  ghost predicate IsFirst(ms: seq<MarkerRecord>, role: Role, m: MarkerRecord) {
    exists i :: 0 <= i < |ms| && ms[i] == m && m.role == Some(role) && forall j | 0 <= j < i :: ms[j].role != Some(role)
  }

  /**
   * The one marker of a role: at the head, for the block, PASS. Every record of the role carries its
   * comment id and says the same; where ids are distinct there is no other.
   */
  ghost predicate SolePass(ms: seq<MarkerRecord>, role: Role, m: MarkerRecord, block: string, head: string) {
    && IsFirst(ms, role, m)
    && (forall x | IsOf(ms, role, x) :: x.commentId == m.commentId && SaySame(x, m))
    && m.block == block && m.sha == head && m.status.Passed?
  }

  lemma {:induction false} FirstLeft(keep: MarkerRecord -> bool, ms: seq<MarkerRecord>, i: nat)
    requires i < |ms| && keep(ms[i]) && forall j | 0 <= j < i :: !keep(ms[j])
    ensures Filter(keep, ms) != [] && Filter(keep, ms)[0] == ms[i]
  {
    if i > 0 {
      FirstLeft(keep, ms[1..], i - 1);
    }
  }

  lemma {:induction false} FirstOf(ms: seq<MarkerRecord>, role: Role) returns (i: nat)
    requires exists m :: IsOf(ms, role, m)
    ensures i < |ms| && ms[i].role == Some(role) && forall j | 0 <= j < i :: ms[j].role != Some(role)
  {
    if ms[0].role == Some(role) {
      i := 0;
    } else {
      var m :| IsOf(ms, role, m);
      assert IsOf(ms[1..], role, m);
      var k := FirstOf(ms[1..], role);
      i := k + 1;
    }
  }

  lemma ActiveStarts(ms: seq<MarkerRecord>, role: Role, m: MarkerRecord)
    ensures IsFirst(ms, role, m) <==> Active(ms, role) != [] && Active(ms, role)[0] == m
  {
    var active := Active(ms, role);
    if active != [] {
      assert active[0] in active;
      ActiveIs(ms, role, active[0]);
      var i := FirstOf(ms, role);
      FirstLeft((x: MarkerRecord) => x.role == Some(role), ms, i);
    }
    if i: nat :| i < |ms| && ms[i] == m && m.role == Some(role) && forall j | 0 <= j < i :: ms[j].role != Some(role) {
      FirstLeft((x: MarkerRecord) => x.role == Some(role), ms, i);
    }
  }

  /** Where all ids are equal the canonical record is the first. */
  lemma {:induction false} CanonicalOnTie(ms: seq<MarkerRecord>)
    requires ms != [] && forall x | x in ms :: x.commentId == ms[0].commentId
    ensures Canonical(ms) == ms[0]
  {
    if |ms| > 1 {
      assert ms[1] in ms && ms[1..][0] == ms[1];
      assert forall x | x in ms[1..] :: x in ms;
      CanonicalOnTie(ms[1..]);
    }
  }

  /** The same in terms of resolution. */
  lemma SoleMeans(ms: seq<MarkerRecord>, role: Role, m: MarkerRecord, block: string, head: string)
    ensures SolePass(ms, role, m, block, head) <==>
              var active := Active(ms, role);
              && active != [] && m == Canonical(active)
              && (forall x | x in active :: x.commentId == m.commentId && SignatureOf(x) == SignatureOf(m))
              && m.block == block && m.sha == head && m.status.Passed?
  {
    hide Active, Canonical, IsFirst, IsOf;
    var active := Active(ms, role);
    ActiveStarts(ms, role, m);
    forall x ensures x in active <==> IsOf(ms, role, x) {
      ActiveIs(ms, role, x);
    }
    if active != [] && forall x | x in active :: x.commentId == m.commentId {
      assert active[0] in active;
      CanonicalOnTie(active);
    }
  }

  lemma SoleIsAlone(ms: seq<MarkerRecord>, role: Role, m: MarkerRecord, block: string, head: string)
    requires DistinctIds(ms) && SolePass(ms, role, m, block, head)
    ensures Active(ms, role) == [m]
  {
    SoleMeans(ms, role, m, block, head);
    hide Canonical, SolePass;
    var active := Active(ms, role);
    KeepsDistinct(ms, role);
    var keep := (x: MarkerRecord) => x.commentId == m.commentId;
    var i :| 0 <= i < |active| && active[i] == m;
    FilterSingle(keep, active, i) by {
      forall j | 0 <= j < |active| && j != i ensures !keep(active[j]) {
      }
    }
    FilterAll(keep, active);
  }

  lemma SoleResolution(ms: seq<MarkerRecord>, role: Role, block: string, head: string, r: Resolution)
    requires ResolveMarkers(ms, role, block, head, FinalizePhase) == Pass(r)
    requires r.duplicates == [] && Passes(r)
    ensures SolePass(ms, role, r.marker.value, block, head)
  {
    hide Canonical, Duplicates, SolePass;
    var active := Active(ms, role);
    NothingBehind(active, head);
    var m := r.marker.value;
    forall x | x in active ensures x.commentId == m.commentId && SignatureOf(x) == SignatureOf(m) {
      DuplicatesAre(active, m.commentId, x.commentId);
      var i :| 0 <= i < |active| && active[i] == x;
      var j :| 0 <= j < |active| && active[j] == m;
    }
    var k :| 0 <= k < |active| && active[k] == m;
    SoleMeans(ms, role, m, block, head);
  }

  lemma KeepsDistinct(ms: seq<MarkerRecord>, role: Role)
    requires DistinctIds(ms)
    ensures DistinctIds(Active(ms, role))
  {
    FilterKeepsDistinct((m: MarkerRecord) => m.role == Some(role), ms);
  }

  lemma NothingBehind(active: seq<MarkerRecord>, head: string)
    ensures Behind(active, head) == [] <==> forall m | m in active :: m.sha == head
    ensures Behind(active, head) == [] ==> AtHead(active, head) == active
  {
    if Behind(active, head) != [] {
      assert Behind(active, head)[0] in Behind(active, head);
    } else {
      forall m | m in active ensures m.sha == head {
        assert m in Behind(active, head) <==> m.sha != head;
      }
      FilterAll((m: MarkerRecord) => m.sha == head, active);
    }
  }

  lemma SoleIsActive(ms: seq<MarkerRecord>, role: Role, m: MarkerRecord, block: string, head: string)
    requires SolePass(ms, role, m, block, head)
    ensures m in Active(ms, role)
  {
    SoleMeans(ms, role, m, block, head);
  }

  lemma SoleResolves(ms: seq<MarkerRecord>, role: Role, m: MarkerRecord, block: string, head: string)
    requires SolePass(ms, role, m, block, head)
    ensures ResolveMarkers(ms, role, block, head, FinalizePhase) == Pass(Resolution(Some(m), [], []))
  {
    SoleMeans(ms, role, m, block, head);
    hide Active, Canonical, SolePass;
    var active := Active(ms, role);
    forall x | x in active ensures x.sha == head && x.block == block && x.commentId == m.commentId {
      assert SignatureOf(x) == SignatureOf(m);
    }
    NothingBehind(active, head);
    FilterNone((x: MarkerRecord) => x.commentId != m.commentId, active);
    assert forall i | 0 <= i < |active| :: active[i] in active;
  }

  /** The records of a thread: their kind fits their role, and their payload is normal. */
  lemma RecordFacts(comments: seq<Comment>, m: MarkerRecord, role: Role)
    requires AllMarkers(comments).Pass? && m in Active(AllMarkers(comments).value, role)
    ensures m.role == Some(role) && NormalizeLines(m.payload) == m.payload
    ensures m.kind.BuildV2? ==> role.BuildRole?
    ensures m.kind.AuditV2? ==> role.AuditRole?
  {
    hide MarkerOf, NormalizeLines, RecordOf;
    assert m in AllMarkers(comments).value && m.role == Some(role);
    RecordSource(comments, m);
    var i :| 0 <= i < |comments| && MarkerOf(comments[i]) == Pass(Some(m)) && comments[i].id == m.commentId;
    MarkerParts(comments[i], m);
    RecordShape(m);
    NormalizeIdempotent(RawPayload(comments[i]));
  }

  /** A fresh human decision: the only receipt of the thread, for this head and manifest, after the audit. */
  ghost predicate HumanDecides(s: Snapshot, block: string, head: string, digest: string, audit: MarkerRecord,
                               decision: HumanDecision)
  {
    exists r: HumanReceipt ::
      Receipts(s.comments) == Pass([r]) && r.block == block && r.sha == head && r.manifestDigest == digest
      && audit.commentId < r.commentId && r.decision == decision
  }

  /** All that stands behind an authorized finalize. */
  ghost predicate FinalizeGrounds(
    s: Snapshot, world: World, w: WorkBlock, m: AcceptanceManifest, build: MarkerRecord, audit: MarkerRecord)
  {
    && s.pullRequest.Some? && AllMarkers(s.comments).Pass?
    && DescribesBlock(s, w) && DeclaresManifest(s.documents, m) && ManifestFits(s, w, m)
    && s.source.Live? && Admitted(s, FinalizePhase, world, w)
    && var head, markers := s.pullRequest.value.headSha, AllMarkers(s.comments).value;
       SolePass(markers, BuildRole, build, w.block, head) && build.kind.BuildV2?
       && SolePass(markers, AuditRole, audit, w.block, head) && audit.kind.AuditV2?
       && Get(build.fields, ManifestKey) == Some(world.digest(m)) && Get(audit.fields, ManifestKey) == Some(world.digest(m))
       && Carries(build, m, s, world) && Carries(audit, m, s, world)
       && build.payload != audit.payload
       && ChecksPass(s) && SmokePasses(s)
       && s.requestedChanges == Some(false) && s.openThreads == Some(0)
       && s.mergeable == Some(true) && s.mergeability == Some("clean") && s.baseProtected == Some(true)
       && s.permission.Some? && s.permission.value in {"ADMIN", "MAINTAIN", "WRITE"}
  }

  lemma FinalizableMeans(s: Snapshot, world: World, c: Case)
    requires IsFinalizable(s, world, c)
    ensures c.build.marker.Some? && c.audit.marker.Some?
    ensures FinalizeGrounds(s, world, c.w, c.m, c.build.marker.value, c.audit.marker.value)
  {
    hide Carries, Admitted, DescribesBlock, DeclaresManifest, ManifestFits, ChecksPass, SmokePasses, AllMarkers,
         ResolveMarkers, Active, NormalizeLines;
    var head, markers := s.pullRequest.value.headSha, AllMarkers(s.comments).value;
    var build, audit := c.build.marker.value, c.audit.marker.value;
    SoleResolution(markers, BuildRole, c.w.block, head, c.build);
    SoleResolution(markers, AuditRole, c.w.block, head, c.audit);
    SoleIsActive(markers, BuildRole, build, c.w.block, head);
    SoleIsActive(markers, AuditRole, audit, c.w.block, head);
    RecordFacts(s.comments, build, BuildRole);
    RecordFacts(s.comments, audit, AuditRole);
    CarriesMeans(build, c.m, s, world);
    CarriesMeans(audit, c.m, s, world);
  }

  lemma CarriesMeans(marker: MarkerRecord, m: AcceptanceManifest, s: Snapshot, world: World)
    requires Carries(marker, m, s, world)
    ensures marker.kind.BuildV2? || marker.kind.AuditV2?
    ensures Get(marker.fields, ManifestKey) == Some(world.digest(m))
  {
  }

  lemma GroundsFinalize(
    s: Snapshot, world: World, w: WorkBlock, m: AcceptanceManifest, build: MarkerRecord, audit: MarkerRecord)
    requires FinalizeGrounds(s, world, w, m, build, audit)
    ensures IsFinalizable(s, world, Case(w, m, Resolution(Some(build), [], []), Resolution(Some(audit), [], [])))
  {
    hide Carries, Admitted, DescribesBlock, DeclaresManifest, ManifestFits, ChecksPass, SmokePasses, AllMarkers,
         ResolveMarkers, Active, NormalizeLines;
    var head, markers := s.pullRequest.value.headSha, AllMarkers(s.comments).value;
    SoleResolves(markers, BuildRole, build, w.block, head);
    SoleResolves(markers, AuditRole, audit, w.block, head);
    SoleIsActive(markers, BuildRole, build, w.block, head);
    SoleIsActive(markers, AuditRole, audit, w.block, head);
    RecordFacts(s.comments, build, BuildRole);
    RecordFacts(s.comments, audit, AuditRole);
  }

  lemma ReceiptMeans(
    comments: seq<Comment>, block: string, head: string, digest: string, audit: MarkerRecord, r: HumanReceipt)
    ensures ResolveReceipt(comments, block, head, digest, Some(audit)) == Pass(Some(r))
       <==> Receipts(comments) == Pass([r]) && r.block == block && r.sha == head && r.manifestDigest == digest
            && audit.commentId < r.commentId
  {
    hide Receipts;
    if Receipts(comments).Pass? {
      var all := Receipts(comments).value;
      assert |all| == 1 ==> all == [all[0]];
    }
  }

  /** What a final decision rests on, beside the grounds common to all of them. */
  ghost predicate FinalCase(
    s: Snapshot, world: World, w: WorkBlock, m: AcceptanceManifest, build: MarkerRecord, audit: MarkerRecord, d: Decision)
  {
    FinalizeGrounds(s, world, w, m, build, audit)
    && var head, digest := s.pullRequest.value.headSha, world.digest(m);
       match d
       case AutoAuthorized => w.policy.Auto?
       case HumanAuthorized => w.policy.Human? && HumanDecides(s, w.block, head, digest, audit, Approve)
       case HumanRejected => w.policy.Human? && HumanDecides(s, w.block, head, digest, audit, Reject)
       case AwaitingHuman => w.policy.Human? && Receipts(s.comments) == Pass([])
       case _ => false
  }

  lemma FinalizesMeans(s: Snapshot, world: World, c: Case, d: Decision)
    requires Finalizes(s, world, c, d)
    ensures c.build.marker.Some? && c.audit.marker.Some?
    ensures FinalCase(s, world, c.w, c.m, c.build.marker.value, c.audit.marker.value, d)
  {
    hide FinalizeGrounds, IsFinalizable, Receipts;
    FinalizableMeans(s, world, c);
    assert FinalizeGrounds(s, world, c.w, c.m, c.build.marker.value, c.audit.marker.value);
    GroundsHavePullRequest(s, world, c.w, c.m, c.build.marker.value, c.audit.marker.value);
    if (d.HumanAuthorized? || d.HumanRejected?) {
      ReceiptMeans(s.comments, c.w.block, s.pullRequest.value.headSha, world.digest(c.m), c.audit.marker.value,
                   Receipt(s, world, c).value.value);
    }
  }

  lemma GroundsHavePullRequest(
    s: Snapshot, world: World, w: WorkBlock, m: AcceptanceManifest, build: MarkerRecord, audit: MarkerRecord)
    requires FinalizeGrounds(s, world, w, m, build, audit)
    ensures s.pullRequest.Some?
  {
  }

  lemma CaseFinalizes(
    s: Snapshot, world: World, w: WorkBlock, m: AcceptanceManifest, build: MarkerRecord, audit: MarkerRecord, d: Decision)
    requires FinalCase(s, world, w, m, build, audit, d)
    ensures Finalizes(s, world, Case(w, m, Resolution(Some(build), [], []), Resolution(Some(audit), [], [])), d)
  {
    hide FinalizeGrounds, IsFinalizable, Receipts;
    GroundsHavePullRequest(s, world, w, m, build, audit);
    GroundsFinalize(s, world, w, m, build, audit);
    if d.HumanAuthorized? || d.HumanRejected? {
      var r: HumanReceipt :|
        Receipts(s.comments) == Pass([r]) && r.block == w.block && r.sha == s.pullRequest.value.headSha
        && r.manifestDigest == world.digest(m) && audit.commentId < r.commentId
        && r.decision == if d.HumanAuthorized? then Approve else Reject;
      ReceiptMeans(s.comments, w.block, s.pullRequest.value.headSha, world.digest(m), audit, r);
    }
  }

  /**
   * Finalize decides `d` if and only if the whole conjunction holds: a live snapshot, exactly one PASS v2
   * build marker and one PASS v2 audit marker, both at the head and bound to the manifest with full and
   * different evidence, an accepted scope and authority, green checks, clean review and mergeability,
   * and, under the HUMAN policy, the matching receipt.
   */
  lemma FinalizeExactly(s: Snapshot, world: World, d: Decision)
    requires IsFinalDecision(d)
    ensures Decides(s, FinalizePhase, world, d) <==> exists w, m, build, audit :: FinalCase(s, world, w, m, build, audit, d)
  {
    hide FinalCase, Finalizes;
    if Decides(s, FinalizePhase, world, d) {
      var c :| Finalizes(s, world, c, d);
      FinalizesMeans(s, world, c, d);
    }
    if exists w, m, build, audit :: FinalCase(s, world, w, m, build, audit, d) {
      var w, m, build, audit :| FinalCase(s, world, w, m, build, audit, d);
      CaseFinalizes(s, world, w, m, build, audit, d);
    }
  }
}

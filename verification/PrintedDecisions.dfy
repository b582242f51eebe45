/** What a printed human receipt makes finalize decide. */
module PrintedDecisions {
  import opened Wrappers
  import opened Sequences
  import opened GuardText
  import opened MarkerText
  import opened Markers
  import opened Convergence
  import opened Manifest
  import opened WorkBlock
  import opened Snapshot
  import opened Guard
  import opened GuardMeaning
  import T = TextMeaning

  const RECEIPT_TOKEN := "development-workflow:human-v1"

  /** Comment `i` is a receipt printed with these four values, and no other comment names a receipt. */
  ghost predicate OneReceipt(
    comments: seq<Comment>, i: nat, lines: seq<string>, block: string, sha: string, decision: string, digest: string)
  {
    && i < |comments|
    && T.Tabulates(lines, T.ReceiptTable(block, sha, decision, digest))
    && T.IsText(ToLf(comments[i].body), "human-v1", lines, "")
    && forall j | 0 <= j < |comments| && j != i :: !Contains(ToLf(comments[j].body), RECEIPT_TOKEN)
  }

  /** A head and a digest that a v2 marker of the thread carries are hexadecimal. */
  lemma GroundsAreHex(
    s: Snapshot, world: World, w: WorkBlock, m: AcceptanceManifest, build: MarkerRecord, audit: MarkerRecord)
    requires FinalizeGrounds(s, world, w, m, build, audit)
    ensures s.pullRequest.Some? && T.IsHex(s.pullRequest.value.headSha, 40) && T.IsHex(world.digest(m), 64)
  {
    hide MarkerOf, AllMarkers, Carries, Admitted, DescribesBlock, DeclaresManifest, ManifestFits, ChecksPass, SmokePasses,
         SolePass;
    var head, ms := s.pullRequest.value.headSha, AllMarkers(s.comments).value;
    SoleIsActive(ms, BuildRole, build, w.block, head);
    ActiveIs(ms, BuildRole, build);
    RecordSource(s.comments, build);
    var i :| 0 <= i < |s.comments| && MarkerOf(s.comments[i]) == Pass(Some(build)) && s.comments[i].id == build.commentId;
    BuildIsHex(s.comments[i], build);
    SoleNamesHead(ms, BuildRole, build, w.block, head);
  }

  lemma SoleNamesHead(ms: seq<MarkerRecord>, role: Role, m: MarkerRecord, block: string, head: string)
    requires SolePass(ms, role, m, block, head)
    ensures m.sha == head
  {
  }

  lemma BuildIsHex(c: Comment, m: MarkerRecord)
    requires MarkerOf(c) == Pass(Some(m)) && m.kind.BuildV2?
    ensures T.IsHex(m.sha, 40) && Get(m.fields, ManifestKey).Some? && T.IsHex(Get(m.fields, ManifestKey).value, 64)
  {
    hide MarkerOf, ToLf, MatchBlock, T.IsHex, T.SameTable, T.IsText, T.Tabulates, NormalizeLines;
    var table := T.MarkerIsText(c, m);
    T.EntriesByName(m.fields, table);
  }

  /**
   * With all else in place and the HUMAN policy, the printed decision decides: APPROVE authorizes,
   * REJECT rejects, and any other text fails, as does a receipt with an id not after the audit's.
   */
  lemma PrintedReceiptDecides(
    s: Snapshot, world: World, w: WorkBlock, m: AcceptanceManifest, build: MarkerRecord, audit: MarkerRecord,
    i: nat, lines: seq<string>, decision: string)
    requires FinalizeGrounds(s, world, w, m, build, audit) && w.policy.Human? && s.pullRequest.Some?
    requires OneReceipt(s.comments, i, lines, w.block, s.pullRequest.value.headSha, decision, world.digest(m))
    ensures var after := audit.commentId < s.comments[i].id;
            && (Decides(s, FinalizePhase, world, HumanAuthorized) <==> after && decision == "APPROVE")
            && (Decides(s, FinalizePhase, world, HumanRejected) <==> after && decision == "REJECT")
            && (Decides(s, FinalizePhase, world, GuardFailed) <==> !after || (decision != "APPROVE" && decision != "REJECT"))
  {
    hide FinalizeGrounds, Receipts, HumanReceiptOf, Stage, IsFinalizable, Grounds, CaseGrounds;
    var c := Case(w, m, Resolution(Some(build), [], []), Resolution(Some(audit), [], []));
    GroundsFinalize(s, world, w, m, build, audit);
    ReceiptOfThread(s, world, w, m, build, audit, i, lines, decision);
    FinalizableIsStaged(s, world, c);
    forall d: Decision ensures Grounds(s, FinalizePhase, world, d) <==> CaseGrounds(s, FinalizePhase, world, c, d) {
      GroundsOfCase(s, FinalizePhase, world, c, d);
    }
    forall d: Decision ensures CaseGrounds(s, FinalizePhase, world, c, d) <==> OutcomeOf(Receipt(s, world, c)) == Some(d) {
      CaseByReceipt(s, world, c, d);
    }
  }

  function OutcomeOf(receipt: Guarded<Option<HumanReceipt>>): Option<Decision> {
    if receipt.GuardFailure? then None
    else if receipt.value.None? then Some(AwaitingHuman)
    else if receipt.value.value.decision.Approve? then Some(HumanAuthorized) else Some(HumanRejected)
  }

  lemma FinalizableIsStaged(s: Snapshot, world: World, c: Case)
    requires IsFinalizable(s, world, c)
    ensures Stage(s, FinalizePhase, world, c) && s.pullRequest.Some?
  {
    hide CarriedBy, Independent, ChecksPass, SmokePasses, Passes, LiveEvidence, Reviewed, IsAdmitted, IsDescribed;
  }

  lemma CaseByReceipt(s: Snapshot, world: World, c: Case, d: Decision)
    requires IsFinalizable(s, world, c) && c.w.policy.Human? && s.pullRequest.Some?
    ensures CaseGrounds(s, FinalizePhase, world, c, d) <==> OutcomeOf(Receipt(s, world, c)) == Some(d)
  {
    hide IsFinalizable, Receipt;
  }

  lemma ReceiptOfThread(
    s: Snapshot, world: World, w: WorkBlock, m: AcceptanceManifest, build: MarkerRecord, audit: MarkerRecord,
    i: nat, lines: seq<string>, decision: string)
    requires FinalizeGrounds(s, world, w, m, build, audit) && s.pullRequest.Some?
    requires OneReceipt(s.comments, i, lines, w.block, s.pullRequest.value.headSha, decision, world.digest(m))
    ensures var c := Case(w, m, Resolution(Some(build), [], []), Resolution(Some(audit), [], []));
            OutcomeOf(Receipt(s, world, c)) ==
              if audit.commentId >= s.comments[i].id then None
              else if decision == "APPROVE" then Some(HumanAuthorized)
              else if decision == "REJECT" then Some(HumanRejected)
              else None
  {
    hide FinalizeGrounds, Receipts, HumanReceiptOf, T.Tabulates, T.IsText, Contains, ToLf, T.IsHex;
    GroundsAreHex(s, world, w, m, build, audit);
    var head, digest := s.pullRequest.value.headSha, world.digest(m);
    forall j | 0 <= j < |s.comments| && j != i ensures HumanReceiptOf(s.comments[j]) == Pass(None) {
      T.NoReceiptMeansText(s.comments[j]);
    }
    T.PrintedReceipt(s.comments[i], lines, w.block, head, decision, digest);
    ReceiptsOfOne(s.comments, i);
  }
}

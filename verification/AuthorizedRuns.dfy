/** Two runs that end in an authorized human finalize although the audit verdict is newer than the approval. */
module AuthorizedRuns {
  import opened Wrappers
  import opened Sequences
  import opened GuardText
  import opened MarkerText
  import opened Markers
  import opened Reconciliation
  import opened Manifest
  import M = Manifest
  import E = Evidence
  import opened WorkBlock
  import opened Scope
  import opened ScopeCheck
  import opened Snapshot
  import opened Guard
  import opened GuardMeaning
  import R = ReviewProtocol

  // ----- The block and its manifest -----

  const BLOCK := "B"
  const PAYLOAD_BUILD := "b"
  const PAYLOAD_AUDIT := "a"

  function Block(sha: string): WorkBlock {
    WorkBlock(BLOCK, R0, Fast, Human, NoEffect, "m", sha, "h", Ui, None, None)
  }

  function Fields(sha: string): seq<Declaration> {
    [(BlockName, BLOCK), (RiskName, "R0"), (ProfileName, "FAST"), (PolicyName, "HUMAN"), (RouteName, "NONE"),
     (BaseName, "m@" + sha), (BranchName, "h"), (WriterName, "UI_WORKER")]
  }

  lemma {:induction false} ValueAt(declared: seq<Declaration>, i: nat)
    requires NamesDistinct(declared) && i < |declared|
    ensures ValueOf(declared, declared[i].0) == Some(declared[i].1)
  {
    var n := |declared| - 1;
    if i < n {
      ValueAt(declared[..n], i);
    }
  }

  lemma FieldsAreDistinct(sha: string)
    ensures NamesDistinct(Fields(sha))
  {
  }

  lemma FieldValues(sha: string)
    ensures var d := Fields(sha);
            && ValueOf(d, BlockName) == Some(BLOCK) && ValueOf(d, RiskName) == Some("R0")
            && ValueOf(d, ProfileName) == Some("FAST") && ValueOf(d, PolicyName) == Some("HUMAN")
            && ValueOf(d, RouteName) == Some("NONE") && ValueOf(d, BaseName) == Some("m@" + sha)
            && ValueOf(d, BranchName) == Some("h") && ValueOf(d, WriterName) == Some("UI_WORKER")
            && ValueOf(d, LegacyName) == None && ValueOf(d, StandingName) == None
  {
    hide ValueOf;
    var d := Fields(sha);
    FieldsAreDistinct(sha);
    ValueAt(d, 0);
    ValueAt(d, 1);
    ValueAt(d, 2);
    ValueAt(d, 3);
    ValueAt(d, 4);
    ValueAt(d, 5);
    ValueAt(d, 6);
    ValueAt(d, 7);
    ValueIsDeclared(d, LegacyName);
    ValueIsDeclared(d, StandingName);
  }

  lemma UpperCase()
    ensures Upper("R0") == "R0" && Upper("FAST") == "FAST" && Upper("HUMAN") == "HUMAN" && Upper("NONE") == "NONE"
    ensures Underscored(Upper("UI_WORKER")) == "UI_WORKER"
  {
  }

  lemma BaseIsRead(sha: string)
    requires IsFullSha(sha)
    ensures BaseOf("m@" + sha) == Pass(("m", sha))
  {
    var s := "m@" + sha;
    assert s[0] == 'm' && s[1] == '@' && s[1..][0] == '@';
    assert IndexOf(s[1..], '@') == 0;
    assert s[..1] == "m" && s[2..] == sha;
  }

  lemma BlockIsRead(sha: string)
    requires IsFullSha(sha)
    ensures WorkBlockOf(Fields(sha)) == Pass(Block(sha))
  {
    hide ValueOf, Upper, Underscored, BaseOf;
    FieldValues(sha);
    UpperCase();
    BaseIsRead(sha);
  }

  const REQUIREMENT := "smoke:x"

  const ITEM := M.Item("A", M.Acceptance, [REQUIREMENT])

  const MANIFEST := M.AcceptanceManifest(M.NoEffect, [ITEM])

  const ITEM_JSON := M.Object([("id", M.Text("A")), ("kind", M.Text("acceptance")),
                               ("requirements", M.Array([M.Text(REQUIREMENT)]))])

  const MANIFEST_JSON := M.Object([("schema_version", M.Text(M.MANIFEST_SCHEMA)), ("route_effect", M.Text("NONE")),
                                   ("items", M.Array([ITEM_JSON]))])

  lemma ThreeMembers(a: (string, Json), b: (string, Json), c: (string, Json))
    requires a.0 != b.0 && b.0 != c.0 && a.0 != c.0
    ensures M.Names([a, b, c]) == {a.0, b.0, c.0}
    ensures M.Member([a, b, c], a.0) == Some(a.1) && M.Member([a, b, c], b.0) == Some(b.1)
    ensures M.Member([a, b, c], c.0) == Some(c.1)
  {
    var s := [a, b, c];
    assert s[0] == a && s[1] == b && s[2] == c;
    assert DistinctNames(s);
    MemberAt(s, 0);
    MemberAt(s, 1);
    MemberAt(s, 2);
  }

  lemma OneMember(a: (string, Json))
    ensures M.Names([a]) == {a.0} && M.Member([a], a.0) == Some(a.1)
  {
    assert [a][0] == a;
    MemberAt([a], 0);
  }

  lemma RequirementIsRead()
    ensures RequirementOf(REQUIREMENT) == Pass(M.Requirement(M.SmokeKind, "x"))
  {
    var s := REQUIREMENT;
    IndexIsFirst(s, ':');
    assert s[5] == ':';
    assert IndexOf(s, ':') == 5;
    assert s[..5] == "smoke" && s[6..] == "x";
  }

  lemma ItemIsDescribed()
    ensures DescribesItem(ITEM_JSON, ITEM)
  {
    hide Member, Names;
    RequirementIsRead();
    ThreeMembers(("id", M.Text("A")), ("kind", M.Text("acceptance")), ("requirements", M.Array([M.Text(REQUIREMENT)])));
    assert DescribesRequirements([M.Text(REQUIREMENT)], [REQUIREMENT]);
  }

  lemma ManifestIsDeclared()
    ensures DeclaresManifest([Pass(MANIFEST_JSON)], MANIFEST)
  {
    hide Member, Names, DescribesItem;
    ItemIsDescribed();
    UpperCase();
    ThreeMembers(("schema_version", M.Text(M.MANIFEST_SCHEMA)), ("route_effect", M.Text("NONE")),
                 ("items", M.Array([ITEM_JSON])));
    assert DescribesManifest(MANIFEST_JSON, MANIFEST);
    assert OnlyManifest([Pass(MANIFEST_JSON)], 0);
  }

  // ----- The evidence -----

  const REFERENCES_JSON := M.Object([(REQUIREMENT, M.Text("r"))])

  const ENTRY_JSON := M.Object([("id", M.Text("A")), ("verdict", M.Text("PASS")), ("evidence", REFERENCES_JSON)])

  const EVIDENCE_JSON := M.Object([("items", M.Array([ENTRY_JSON]))])

  const ENTRY := E.Entry("A", map[REQUIREMENT := "r"])

  lemma EntryIsRead()
    ensures E.EntryOf(ENTRY_JSON) == Pass(ENTRY)
  {
    hide Member, Names;
    ThreeMembers(("id", M.Text("A")), ("verdict", M.Text("PASS")), ("evidence", REFERENCES_JSON));
    OneMember((REQUIREMENT, M.Text("r")));
    assert E.ReferencesOf(REFERENCES_JSON.members) == map[REQUIREMENT := "r"];
  }

  lemma EvidenceIsRead()
    ensures E.PayloadEntries(Pass(EVIDENCE_JSON)) == Pass([ENTRY])
    ensures E.OneToOne([ENTRY], MANIFEST.items)
  {
    hide Member, Names, E.EntryOf;
    EntryIsRead();
    OneMember(("items", M.Array([ENTRY_JSON])));
    assert E.PayloadElements(Pass(EVIDENCE_JSON)) == Pass([ENTRY_JSON]);
    assert [ENTRY_JSON][..0] == [] && E.EntriesOf([]) == Pass([]);
    assert [] + [ENTRY] == [ENTRY];
    assert E.EntriesOf([ENTRY_JSON]) == Pass([ENTRY]);
    assert Elements([REQUIREMENT]) == {REQUIREMENT} by {
      assert [REQUIREMENT][0] == REQUIREMENT;
    }
    assert E.Matches(ENTRY, ITEM);
    assert E.Pairing([0], [ENTRY], MANIFEST.items);
  }

  // ----- The snapshot -----

  function TheWorld(digest: string): World {
    World(Policies(GuardFailure, "", GuardFailure), (m: AcceptanceManifest) => digest,
          (payload: string) => Pass(EVIDENCE_JSON), (path: string) => GuardFailure)
  }

  function TheSnapshot(sha: string, comments: seq<Comment>): Snapshot {
    Snapshot(
      None, true, {ACTIVE_LABEL}, Fields(sha), [Pass(MANIFEST_JSON)], [], NoReview,
      Some(PullRequest(true, "h", sha, "m", sha)), None,
      comments, [Check(QUALITY, "completed", "success")], Smoke(Some("PASS"), "s"),
      Some(false), Some(0),
      Live, Some(true), Some("clean"), Some("WRITE"), Some(true),
      Some(ScopeEvidence([], map[], map[], {}, None)), None, None)
  }

  lemma NothingDeclared(w: WorkBlock)
    requires w == Block(w.baseSha)
    ensures ScopeAccepted([], w, ScopeEvidence([], map[], map[], {}, None), false)
  {
    var scope := DeclaredScope(map[], map[], map[], map[]);
    assert Describes(scope, []);
    assert InScope(w, scope, ScopeEvidence([], map[], map[], {}, None), false);
  }

  lemma SnapshotIsAdmitted(sha: string, digest: string, comments: seq<Comment>)
    requires IsFullSha(sha)
    ensures var s := TheSnapshot(sha, comments);
            && DescribesBlock(s, Block(sha)) && DeclaresManifest(s.documents, MANIFEST)
            && ManifestFits(s, Block(sha), MANIFEST) && Admitted(s, FinalizePhase, TheWorld(digest), Block(sha))
  {
    hide WorkBlockOf, ScopeAccepted, DeclaresManifest, NamesDistinct;
    FieldsAreDistinct(sha);
    BlockIsRead(sha);
    ManifestIsDeclared();
    NothingDeclared(Block(sha));
  }

  lemma RequirementsAreMet(sha: string, comments: seq<Comment>)
    ensures RequirementsMet(MANIFEST, TheSnapshot(sha, comments), ScopeEvidence([], map[], map[], {}, None))
  {
    hide RequirementOf;
    RequirementIsRead();
  }

  /** A v2 marker of the block with the digest carries the manifest. */
  lemma MarkerCarries(sha: string, digest: string, comments: seq<Comment>, m: MarkerRecord)
    requires m.kind.BuildV2? || m.kind.AuditV2?
    requires Get(m.fields, ManifestKey) == Some(digest)
    ensures Carries(m, MANIFEST, TheSnapshot(sha, comments), TheWorld(digest))
  {
    hide RequirementsMet, E.PayloadEntries, E.OneToOne;
    EvidenceIsRead();
    RequirementsAreMet(sha, comments);
  }

  // ----- The three texts -----

  function BuildFields(sha: string, digest: string): seq<Field> {
    [(BlockKey, BLOCK), (ShaKey, sha), (StatusKey, "PASS"), (ManifestKey, digest)]
  }

  function AuditFields(sha: string, digest: string, status: string): seq<Field> {
    [(BlockKey, BLOCK), (ShaKey, sha), (StatusKey, status), (ReviewerKey, "r"), (ManifestKey, digest)]
  }

  function DecisionText(decision: HumanDecision): string {
    match decision case Approve => "APPROVE" case Reject => "REJECT"
  }

  function ReceiptFields(sha: string, digest: string, decision: HumanDecision): seq<Field> {
    [(BlockKey, BLOCK), (ShaKey, sha), (DecisionKey, DecisionText(decision)), (ManifestKey, digest)]
  }

  function BuildText(sha: string, digest: string): string {
    Printed(0, BuildV2, BuildFields(sha, digest), PAYLOAD_BUILD).body
  }

  function AuditText(sha: string, digest: string, status: string): string {
    Printed(0, AuditV2, AuditFields(sha, digest, status), PAYLOAD_AUDIT).body
  }

  function ReceiptText(sha: string, digest: string, decision: HumanDecision): string {
    Printed(0, HumanV1, ReceiptFields(sha, digest, decision), "").body
  }

  lemma ValuesAreClean(sha: string, digest: string)
    requires IsFullSha(sha) && IsSha256(digest)
    ensures CleanValue(sha) && CleanValue(digest) && CleanValue(BLOCK) && CleanValue("PASS") && CleanValue("FAIL")
    ensures CleanValue("r") && CleanValue("APPROVE") && CleanValue("REJECT")
  {
    hide TokenCount;
    ShaIsClean(sha);
    NoDashNoToken(digest);
    ShortHasNoToken(BLOCK);
    ShortHasNoToken("PASS");
    ShortHasNoToken("FAIL");
    ShortHasNoToken("r");
    ShortHasNoToken("APPROVE");
    ShortHasNoToken("REJECT");
  }

  lemma PayloadsAreClean()
    ensures TokenCount(ToLf(PAYLOAD_BUILD)) == 0 && TokenCount(ToLf(PAYLOAD_AUDIT)) == 0 && TokenCount(ToLf("")) == 0
    ensures NormalizeLines(PAYLOAD_BUILD) == PAYLOAD_BUILD && NormalizeLines(PAYLOAD_AUDIT) == PAYLOAD_AUDIT
  {
    hide TokenCount;
    ToLfClean(PAYLOAD_BUILD);
    ToLfClean(PAYLOAD_AUDIT);
    ToLfClean("");
    ShortHasNoToken(PAYLOAD_BUILD);
    ShortHasNoToken(PAYLOAD_AUDIT);
    ShortHasNoToken("");
  }

  /** The table a printable field list stands for. */
  lemma TableOf(pairs: seq<Field>) returns (fields: map<Key, string>)
    requires Printable(pairs) && |pairs| > 0
    ensures Prints(FieldLines(pairs), fields)
    ensures fields.Keys == set i | 0 <= i < |pairs| :: pairs[i].0
    ensures forall i | 0 <= i < |pairs| :: pairs[i].0 in fields && fields[pairs[i].0] == pairs[i].1
    ensures (forall i | 0 <= i < |pairs| :: !pairs[i].0.OtherKey? && pairs[i].1 != "") && fields == PairMap(pairs)
  {
    hide TokenCount, Prints;
    KeysOf(pairs);
    PrintableIsPrinted(pairs);
    fields := PairMap(pairs);
  }

  /** A printed marker text, under whatever id it is posted. */
  lemma TextIsRead(id: int, kind: MarkerKind, pairs: seq<Field>, payload: string) returns (fields: map<Key, string>)
    requires kind != HumanV1 && Printable(pairs) && |pairs| > 0
    requires TokenCount(ToLf(payload)) == 0 && NormalizeLines(payload) == payload
    ensures MarkerOf(Comment(id, Printed(0, kind, pairs, payload).body))
         == var r := RecordOf(id, kind, fields, payload);
            if r.Pass? then Pass(Some(r.value)) else GuardFailure
    ensures fields.Keys == set i | 0 <= i < |pairs| :: pairs[i].0
    ensures forall i | 0 <= i < |pairs| :: pairs[i].0 in fields && fields[pairs[i].0] == pairs[i].1
  {
    hide MarkerOf, RecordOf, TokenCount, PairMap, NormalizeLines, ToLf, Printable;
    PrintedParses(id, kind, pairs, payload);
    fields := TableOf(pairs);
    assert Printed(id, kind, pairs, payload) == Comment(id, Printed(0, kind, pairs, payload).body);
  }

  lemma FieldsPrint(sha: string, digest: string, status: string)
    requires IsFullSha(sha) && IsSha256(digest) && (status == "PASS" || status == "FAIL")
    ensures Printable(BuildFields(sha, digest)) && Printable(AuditFields(sha, digest, status))
    ensures forall decision :: Printable(ReceiptFields(sha, digest, decision))
  {
    hide CleanValue, IsFullSha, IsSha256;
    ValuesAreClean(sha, digest);
  }

  lemma BuildIsRead(id: int, sha: string, digest: string) returns (m: MarkerRecord)
    requires IsFullSha(sha) && IsSha256(digest)
    ensures MarkerOf(Comment(id, BuildText(sha, digest))) == Pass(Some(m))
    ensures m.commentId == id && m.role == Some(BuildRole) && m.kind.BuildV2? && m.block == BLOCK && m.sha == sha
    ensures m.status.Passed? && m.payload == PAYLOAD_BUILD && Get(m.fields, ManifestKey) == Some(digest)
  {
    hide MarkerOf, TokenCount, PairMap, NormalizeLines, Printed, IsFullSha, IsSha256, Printable, RecordOf, ToLf;
    FieldsPrint(sha, digest, "PASS");
    PayloadsAreClean();
    var fields := TextIsRead(id, BuildV2, BuildFields(sha, digest), PAYLOAD_BUILD);
    m := BuildRecord(id, sha, digest, fields);
  }

  lemma BuildRecord(id: int, sha: string, digest: string, fields: map<Key, string>) returns (m: MarkerRecord)
    requires IsFullSha(sha) && IsSha256(digest)
    requires var pairs := BuildFields(sha, digest);
             && fields.Keys == (set i | 0 <= i < |pairs| :: pairs[i].0)
             && forall i | 0 <= i < |pairs| :: pairs[i].0 in fields && fields[pairs[i].0] == pairs[i].1
    ensures RecordOf(id, BuildV2, fields, PAYLOAD_BUILD) == Pass(m)
    ensures m.commentId == id && m.role == Some(BuildRole) && m.kind.BuildV2? && m.block == BLOCK && m.sha == sha
    ensures m.status.Passed? && m.payload == PAYLOAD_BUILD && Get(m.fields, ManifestKey) == Some(digest)
  {
    var pairs := BuildFields(sha, digest);
    assert fields[pairs[0].0] == BLOCK && fields[pairs[1].0] == sha && fields[pairs[2].0] == "PASS";
    assert fields[pairs[3].0] == digest;
    assert fields.Keys == {BlockKey, ShaKey, StatusKey, ManifestKey};
    m := RecordOf(id, BuildV2, fields, PAYLOAD_BUILD).value;
  }

  lemma AuditIsRead(id: int, sha: string, digest: string, status: string) returns (m: MarkerRecord)
    requires IsFullSha(sha) && IsSha256(digest) && (status == "PASS" || status == "FAIL")
    ensures MarkerOf(Comment(id, AuditText(sha, digest, status))) == Pass(Some(m))
    ensures m.commentId == id && m.role == Some(AuditRole) && m.kind.AuditV2? && m.block == BLOCK && m.sha == sha
    ensures m.status.Passed? <==> status == "PASS"
    ensures m.payload == PAYLOAD_AUDIT && Get(m.fields, ManifestKey) == Some(digest)
  {
    hide MarkerOf, TokenCount, PairMap, NormalizeLines, Printed, IsFullSha, IsSha256, Printable, RecordOf, ToLf;
    FieldsPrint(sha, digest, status);
    PayloadsAreClean();
    var fields := TextIsRead(id, AuditV2, AuditFields(sha, digest, status), PAYLOAD_AUDIT);
    m := AuditRecord(id, sha, digest, status, fields);
  }

  lemma AuditRecord(id: int, sha: string, digest: string, status: string, fields: map<Key, string>) returns (m: MarkerRecord)
    requires IsFullSha(sha) && IsSha256(digest) && (status == "PASS" || status == "FAIL")
    requires var pairs := AuditFields(sha, digest, status);
             && fields.Keys == (set i | 0 <= i < |pairs| :: pairs[i].0)
             && forall i | 0 <= i < |pairs| :: pairs[i].0 in fields && fields[pairs[i].0] == pairs[i].1
    ensures RecordOf(id, AuditV2, fields, PAYLOAD_AUDIT) == Pass(m)
    ensures m.commentId == id && m.role == Some(AuditRole) && m.kind.AuditV2? && m.block == BLOCK && m.sha == sha
    ensures m.status.Passed? <==> status == "PASS"
    ensures m.payload == PAYLOAD_AUDIT && Get(m.fields, ManifestKey) == Some(digest)
  {
    var pairs := AuditFields(sha, digest, status);
    assert fields[pairs[0].0] == BLOCK && fields[pairs[1].0] == sha && fields[pairs[2].0] == status;
    assert fields[pairs[3].0] == "r" && fields[pairs[4].0] == digest;
    assert fields.Keys == {BlockKey, ShaKey, StatusKey, ReviewerKey, ManifestKey};
    m := RecordOf(id, AuditV2, fields, PAYLOAD_AUDIT).value;
  }

  lemma ReceiptIsRead(id: int, sha: string, digest: string, decision: HumanDecision) returns (r: HumanReceipt)
    requires IsFullSha(sha) && IsSha256(digest)
    ensures HumanReceiptOf(Comment(id, ReceiptText(sha, digest, decision))) == Pass(Some(r))
    ensures MarkerOf(Comment(id, ReceiptText(sha, digest, decision))) == Pass(None)
    ensures r == HumanReceipt(id, BLOCK, sha, decision, digest)
  {
    hide MarkerOf, HumanReceiptOf, TokenCount, PairMap, IsFullSha, IsSha256, Prints, Printable, ReceiptOf, Render, ToLf;
    var pairs := ReceiptFields(sha, digest, decision);
    FieldsPrint(sha, digest, "PASS");
    PayloadsAreClean();
    var fields := TableOf(pairs);
    r := HumanReceipt(id, BLOCK, sha, decision, digest);
    ReceiptRecord(id, sha, digest, decision, fields);
    ReceiptInvertsRender(r, fields, FieldLines(pairs), "");
  }

  lemma ReceiptRecord(id: int, sha: string, digest: string, decision: HumanDecision, fields: map<Key, string>)
    requires IsFullSha(sha) && IsSha256(digest)
    requires var pairs := ReceiptFields(sha, digest, decision);
             && fields.Keys == (set i | 0 <= i < |pairs| :: pairs[i].0)
             && forall i | 0 <= i < |pairs| :: pairs[i].0 in fields && fields[pairs[i].0] == pairs[i].1
    ensures ReceiptOf(id, fields, "") == Pass(HumanReceipt(id, BLOCK, sha, decision, digest))
  {
    var pairs := ReceiptFields(sha, digest, decision);
    assert fields[pairs[0].0] == BLOCK && fields[pairs[1].0] == sha && fields[pairs[2].0] == DecisionText(decision);
    assert fields[pairs[3].0] == digest;
    assert fields.Keys == {BlockKey, ShaKey, DecisionKey, ManifestKey};
  }

  // ----- The decision -----

  lemma OnlyBuild(build: MarkerRecord, audit: MarkerRecord, ms: seq<MarkerRecord>, sha: string)
    requires ms == [build, audit] || ms == [audit, build]
    requires build.role == Some(BuildRole) && audit.role == Some(AuditRole)
    requires build.block == BLOCK && build.sha == sha && build.status.Passed?
    requires audit.block == BLOCK && audit.sha == sha && audit.status.Passed?
    ensures SolePass(ms, BuildRole, build, BLOCK, sha) && SolePass(ms, AuditRole, audit, BLOCK, sha)
  {
    var isBuild := (m: MarkerRecord) => m.role == Some(BuildRole);
    var isAudit := (m: MarkerRecord) => m.role == Some(AuditRole);
    var i := if ms[0] == build then 0 else 1;
    FilterSingle((m: MarkerRecord) => m.role == Some(BuildRole), ms, i);
    FilterSingle((m: MarkerRecord) => m.role == Some(AuditRole), ms, 1 - i);
    assert Canonical([build]) == build && Canonical([audit]) == audit;
    SoleMeans(ms, BuildRole, build, BLOCK, sha);
    SoleMeans(ms, AuditRole, audit, BLOCK, sha);
  }

  lemma NothingElseBlocks(sha: string, digest: string, comments: seq<Comment>)
    ensures var s := TheSnapshot(sha, comments);
            && s.comments == comments && s.pullRequest.Some? && s.pullRequest.value.headSha == sha
            && s.source.Live? && ChecksPass(s) && SmokePasses(s)
            && s.requestedChanges == Some(false) && s.openThreads == Some(0)
            && s.mergeable == Some(true) && s.mergeability == Some("clean") && s.baseProtected == Some(true)
            && s.permission == Some("WRITE")
    ensures TheWorld(digest).digest(MANIFEST) == digest && PAYLOAD_BUILD != PAYLOAD_AUDIT
  {
    var s := TheSnapshot(sha, comments);
    assert s.checks == [Check(QUALITY, "completed", "success")];
    assert s.checks[0].name == QUALITY;
  }

  function Outcome(decision: HumanDecision): Decision {
    match decision case Approve => HumanAuthorized case Reject => HumanRejected
  }

  /** Three comments that read as a PASS build, a PASS audit and a later receipt decide finalize. */
  lemma ThreeCommentsDecide(
    sha: string, digest: string, comments: seq<Comment>, ms: seq<MarkerRecord>,
    build: MarkerRecord, audit: MarkerRecord, r: HumanReceipt)
    requires IsFullSha(sha) && IsSha256(digest)
    requires AllMarkers(comments) == Pass(ms) && (ms == [build, audit] || ms == [audit, build])
    requires build.role == Some(BuildRole) && build.kind.BuildV2? && build.block == BLOCK && build.sha == sha
    requires build.status.Passed? && build.payload == PAYLOAD_BUILD && Get(build.fields, ManifestKey) == Some(digest)
    requires audit.role == Some(AuditRole) && audit.kind.AuditV2? && audit.block == BLOCK && audit.sha == sha
    requires audit.status.Passed? && audit.payload == PAYLOAD_AUDIT && Get(audit.fields, ManifestKey) == Some(digest)
    requires Receipts(comments) == Pass([r]) && r == HumanReceipt(r.commentId, BLOCK, sha, r.decision, digest)
    requires audit.commentId < r.commentId
    ensures Decides(TheSnapshot(sha, comments), FinalizePhase, TheWorld(digest), Outcome(r.decision))
  {
    hide AllMarkers, Receipts, Carries, Admitted, DescribesBlock, DeclaresManifest, ManifestFits, SolePass, Decides, Fields,
         IsFullSha, IsSha256;
    var s, world, w := TheSnapshot(sha, comments), TheWorld(digest), Block(sha);
    SnapshotIsAdmitted(sha, digest, comments);
    OnlyBuild(build, audit, ms, sha);
    MarkerCarries(sha, digest, comments, build);
    MarkerCarries(sha, digest, comments, audit);
    NothingElseBlocks(sha, digest, comments);
    assert FinalizeGrounds(s, world, w, MANIFEST, build, audit);
    assert FinalCase(s, world, w, MANIFEST, build, audit, Outcome(r.decision));
    FinalizeExactly(s, world, Outcome(r.decision));
  }

  // ----- The runs -----

  function One<T>(x: Option<T>): seq<T> {
    if x.Some? then [x.value] else []
  }

  lemma MarkerIsAdded(s: seq<Comment>, ms: seq<MarkerRecord>, x: Option<MarkerRecord>)
    requires s != [] && AllMarkers(s[..|s| - 1]) == Pass(ms) && MarkerOf(s[|s| - 1]) == Pass(x)
    ensures AllMarkers(s) == Pass(ms + One(x))
  {
    hide MarkerOf;
    assert x.None? ==> ms + One(x) == ms;
  }

  lemma ReceiptIsAdded(s: seq<Comment>, rs: seq<HumanReceipt>, x: Option<HumanReceipt>)
    requires s != [] && Receipts(s[..|s| - 1]) == Pass(rs) && HumanReceiptOf(s[|s| - 1]) == Pass(x)
    ensures Receipts(s) == Pass(rs + One(x))
  {
    hide HumanReceiptOf;
    assert x.None? ==> rs + One(x) == rs;
  }

  lemma CommentsAreRead(s: seq<Comment>, x: Option<MarkerRecord>, y: Option<MarkerRecord>, z: Option<MarkerRecord>)
    requires |s| == 3 && MarkerOf(s[0]) == Pass(x) && MarkerOf(s[1]) == Pass(y) && MarkerOf(s[2]) == Pass(z)
    ensures AllMarkers(s) == Pass([] + One(x) + One(y) + One(z))
  {
    var two := s[..2];
    var one := two[..1];
    assert AllMarkers(one[..0]) == Pass([]);
    hide MarkerOf, One, AllMarkers;
    MarkerIsAdded(one, [], x);
    MarkerIsAdded(two, [] + One(x), y);
    MarkerIsAdded(s, [] + One(x) + One(y), z);
  }

  lemma ReceiptsAreRead(s: seq<Comment>, x: Option<HumanReceipt>, y: Option<HumanReceipt>, z: Option<HumanReceipt>)
    requires |s| == 3
    requires HumanReceiptOf(s[0]) == Pass(x) && HumanReceiptOf(s[1]) == Pass(y) && HumanReceiptOf(s[2]) == Pass(z)
    ensures Receipts(s) == Pass([] + One(x) + One(y) + One(z))
  {
    var two := s[..2];
    var one := two[..1];
    assert Receipts(one[..0]) == Pass([]);
    hide HumanReceiptOf, One, Receipts;
    ReceiptIsAdded(one, [], x);
    ReceiptIsAdded(two, [] + One(x), y);
    ReceiptIsAdded(s, [] + One(x) + One(y), z);
  }

  function Zeros(n: nat): string {
    seq(n, i => '0')
  }

  const SHA := Zeros(40)
  const DIGEST := Zeros(64)

  /** The numbers the channels stand at: the issue is ahead of the diff, as in any repository in use. */
  const START := R.Thread(SHA, [], R.Counters(10, 1, 1), 0, 0, map[], map[])

  /** A failing audit is approved, and then rewritten to PASS. */
  const STALE_RUN: seq<R.Event> := [
    R.Post(R.OnIssue, BuildText(SHA, DIGEST)),
    R.Post(R.OnIssue, AuditText(SHA, DIGEST, "FAIL")),
    R.Post(R.OnIssue, ReceiptText(SHA, DIGEST, Approve)),
    R.Edit(R.Spot(R.OnIssue, 11), AuditText(SHA, DIGEST, "PASS"))]

  /** An audit that passes is rejected. */
  const REJECTED_RUN: seq<R.Event> := [
    R.Post(R.OnIssue, BuildText(SHA, DIGEST)),
    R.Post(R.OnIssue, AuditText(SHA, DIGEST, "PASS")),
    R.Post(R.OnIssue, ReceiptText(SHA, DIGEST, Reject))]

  /** The approval comes before there is any audit; the audit is then given on the diff, where ids are lower. */
  const CROSS_RUN: seq<R.Event> := [
    R.Post(R.OnIssue, BuildText(SHA, DIGEST)),
    R.Post(R.OnIssue, ReceiptText(SHA, DIGEST, Approve)),
    R.Post(R.OnDiff, AuditText(SHA, DIGEST, "PASS"))]

  lemma RunOfThree(t: R.Thread, a: R.Event, b: R.Event, c: R.Event)
    ensures R.Run(t, [a, b, c]) == R.After(R.After(R.After(t, a), b), c)
    ensures !a.Push? && !b.Push? && !c.Push? ==> R.LegalRun(t, [a, b, c])
  {
    hide R.After;
    assert [a, b, c][1..] == [b, c] && [b, c][1..] == [c] && [c][1..] == [];
    var t2 := R.After(R.After(t, a), b);
    assert R.Run(t2, [c]) == R.After(t2, c) && R.Run(R.After(t, a), [b, c]) == R.After(t2, c);
    assert !c.Push? ==> R.LegalRun(t2, [c]);
    assert !b.Push? && !c.Push? ==> R.LegalRun(R.After(t, a), [b, c]);
  }

  lemma RunOfFour(t: R.Thread, a: R.Event, b: R.Event, c: R.Event, d: R.Event)
    ensures R.Run(t, [a, b, c, d]) == R.After(R.After(R.After(R.After(t, a), b), c), d)
    ensures !a.Push? && !b.Push? && !c.Push? && !d.Push? ==> R.LegalRun(t, [a, b, c, d])
  {
    hide R.After;
    RunOfThree(R.After(t, a), b, c, d);
    assert [a, b, c, d][1..] == [b, c, d];
  }

  lemma ListedOfThree(x: R.Entry, y: R.Entry, z: R.Entry)
    requires x.spot.channel == R.OnIssue && y.spot.channel == R.OnIssue && !z.spot.channel.InReview?
    ensures R.CommentsOf([x, y, z]) == [R.CommentOf(x), R.CommentOf(y), R.CommentOf(z)]
  {
    hide R.OfChannel;
    InChannel(x, y, z, R.OnIssue);
    InChannel(x, y, z, R.OnDiff);
    InChannel(x, y, z, R.InReview);
    assert R.Listed([x, y, z]) == [x, y, z];
  }

  lemma InChannel(x: R.Entry, y: R.Entry, z: R.Entry, channel: R.Channel)
    requires x.spot.channel == R.OnIssue && y.spot.channel == R.OnIssue
    ensures R.OfChannel([x, y, z], channel)
         == (if channel == R.OnIssue then [x, y] else []) + (if z.spot.channel == channel then [z] else [])
  {
    hide Filter;
    assert [x, y, z] == [x, y] + [z];
    ChannelOf([x, y], R.OnIssue, channel);
    ChannelOf([z], z.spot.channel, channel);
    FilterAppend((e: R.Entry) => e.spot.channel == channel, [x, y], [z]);
  }

  lemma ChannelOf(entries: seq<R.Entry>, of: R.Channel, channel: R.Channel)
    requires forall x | x in entries :: x.spot.channel == of
    ensures Filter((e: R.Entry) => e.spot.channel == channel, entries) == if of == channel then entries else []
  {
    if of == channel {
      FilterAll((e: R.Entry) => e.spot.channel == channel, entries);
    } else {
      FilterNone((e: R.Entry) => e.spot.channel == channel, entries);
    }
  }

  /** Where the stale run stands when the approval is posted, the audit does not pass. */
  lemma ApprovedWhileFailing() returns (was: R.Entry, m: MarkerRecord)
    ensures was in R.Run(START, STALE_RUN[..3]).entries && was.spot == R.Spot(R.OnIssue, 11)
    ensures MarkerOf(R.CommentOf(was)) == Pass(Some(m)) && m.role == Some(AuditRole) && !m.status.Passed?
  {
    hide MarkerOf, BuildText, AuditText, ReceiptText;
    assert STALE_RUN[..3] == [STALE_RUN[0], STALE_RUN[1], STALE_RUN[2]];
    RunOfThree(START, STALE_RUN[0], STALE_RUN[1], STALE_RUN[2]);
    was := R.Entry(R.Spot(R.OnIssue, 11), AuditText(SHA, DIGEST, "FAIL"));
    assert R.Run(START, STALE_RUN[..3]).entries[1] == was;
    m := AuditIsRead(11, SHA, DIGEST, "FAIL");
  }

  /**
   * The run that breaks freshness within one channel: what is approved is a failing audit, and the
   * decision after the rewrite is an authorization.
   */
  lemma StaleApprovalIsAccepted() returns (audit: R.Entry, receipt: R.Entry, was: R.Entry, m: MarkerRecord)
    ensures R.Initial(START) && R.LegalRun(START, STALE_RUN)
    ensures was in R.Run(START, STALE_RUN[..3]).entries && was.spot == audit.spot
    ensures MarkerOf(R.CommentOf(was)) == Pass(Some(m)) && m.role == Some(AuditRole) && !m.status.Passed?
    ensures var t := R.Run(START, STALE_RUN);
            && R.Shows(TheSnapshot(SHA, R.CommentsOf(t.entries)), t)
            && Decides(TheSnapshot(SHA, R.CommentsOf(t.entries)), FinalizePhase, TheWorld(DIGEST), HumanAuthorized)
            && audit in t.entries && R.IsMarker(audit, AuditRole)
            && receipt in t.entries && R.IsReceipt(receipt, Approve)
            && audit.spot.channel == receipt.spot.channel
            && receipt.spot in t.created && audit.spot in t.written && t.created[receipt.spot] < t.written[audit.spot]
  {
    hide MarkerOf, HumanReceiptOf, AllMarkers, Receipts, Decides, BuildText, AuditText, ReceiptText, TheSnapshot, R.CommentsOf;
    var t := R.Run(START, STALE_RUN);
    was, m := ApprovedWhileFailing();
    RunOfFour(START, STALE_RUN[0], STALE_RUN[1], STALE_RUN[2], STALE_RUN[3]);
    var build := R.Entry(R.Spot(R.OnIssue, 10), BuildText(SHA, DIGEST));
    audit := R.Entry(R.Spot(R.OnIssue, 11), AuditText(SHA, DIGEST, "PASS"));
    receipt := R.Entry(R.Spot(R.OnIssue, 12), ReceiptText(SHA, DIGEST, Approve));
    assert t.entries == [build, audit, receipt];
    assert t.head == SHA;
    ListedOfThree(build, audit, receipt);
    EntriesDecide(build, audit, receipt, [build, audit, receipt], Approve);
    SnapshotShows(R.CommentsOf(t.entries));
  }

  lemma SnapshotShows(comments: seq<Comment>)
    ensures var s := TheSnapshot(SHA, comments);
            s.comments == comments && s.pullRequest.Some? && s.pullRequest.value.headSha == SHA
  {
  }

  lemma EntriesDecide(build: R.Entry, audit: R.Entry, receipt: R.Entry, entries: seq<R.Entry>, decision: HumanDecision)
    requires entries == [build, audit, receipt] || entries == [build, receipt, audit]
    requires build.body == BuildText(SHA, DIGEST) && audit.body == AuditText(SHA, DIGEST, "PASS")
    requires receipt.body == ReceiptText(SHA, DIGEST, decision) && audit.spot.id < receipt.spot.id
    ensures var comments := [R.CommentOf(entries[0]), R.CommentOf(entries[1]), R.CommentOf(entries[2])];
            Decides(TheSnapshot(SHA, comments), FinalizePhase, TheWorld(DIGEST), Outcome(decision))
    ensures R.IsMarker(audit, AuditRole) && R.IsReceipt(receipt, decision)
  {
    hide MarkerOf, HumanReceiptOf, AllMarkers, Receipts, Decides, BuildText, AuditText, ReceiptText, TheSnapshot;
    var comments := [R.CommentOf(entries[0]), R.CommentOf(entries[1]), R.CommentOf(entries[2])];
    var b := BuildIsRead(build.spot.id, SHA, DIGEST);
    var a := AuditIsRead(audit.spot.id, SHA, DIGEST, "PASS");
    var r := ReceiptIsRead(receipt.spot.id, SHA, DIGEST, decision);
    R.MarkerIsNoReceipt(R.CommentOf(build), b);
    R.MarkerIsNoReceipt(R.CommentOf(audit), a);
    if entries[1] == audit {
      CommentsAreRead(comments, Some(b), Some(a), None);
      ReceiptsAreRead(comments, None, None, Some(r));
    } else {
      CommentsAreRead(comments, Some(b), None, Some(a));
      ReceiptsAreRead(comments, None, Some(r), None);
    }
    assert [] + One(Some(b)) + One(Some(a)) + One(None) == [b, a] == [] + One(Some(b)) + One(None) + One(Some(a));
    assert [] + One(None) + One(None) + One(Some(r)) == [r] == [] + One(None) + One(Some(r)) + One(None);
    assert AllMarkers(comments) == Pass([b, a]);
    assert Receipts(comments) == Pass([r]);
    ThreeCommentsDecide(SHA, DIGEST, comments, [b, a], b, a, r);
  }

  /** The run that breaks creation order across channels, up to the decision. */
  lemma ApprovalMayPrecedeAudit() returns (audit: R.Entry, receipt: R.Entry)
    ensures R.Initial(START) && R.LegalRun(START, CROSS_RUN)
    ensures var t := R.Run(START, CROSS_RUN);
            && R.Shows(TheSnapshot(SHA, R.CommentsOf(t.entries)), t)
            && Decides(TheSnapshot(SHA, R.CommentsOf(t.entries)), FinalizePhase, TheWorld(DIGEST), HumanAuthorized)
            && audit in t.entries && R.IsMarker(audit, AuditRole)
            && receipt in t.entries && R.IsReceipt(receipt, Approve)
            && R.CreatedBefore(t, receipt.spot, audit.spot)
  {
    hide MarkerOf, HumanReceiptOf, AllMarkers, Receipts, Decides, BuildText, AuditText, ReceiptText, TheSnapshot, R.CommentsOf;
    var t := R.Run(START, CROSS_RUN);
    RunOfThree(START, CROSS_RUN[0], CROSS_RUN[1], CROSS_RUN[2]);
    var build := R.Entry(R.Spot(R.OnIssue, 10), BuildText(SHA, DIGEST));
    receipt := R.Entry(R.Spot(R.OnIssue, 11), ReceiptText(SHA, DIGEST, Approve));
    audit := R.Entry(R.Spot(R.OnDiff, 1), AuditText(SHA, DIGEST, "PASS"));
    assert t.entries == [build, receipt, audit];
    assert t.head == SHA;
    ListedOfThree(build, receipt, audit);
    EntriesDecide(build, audit, receipt, [build, receipt, audit], Approve);
    SnapshotShows(R.CommentsOf(t.entries));
  }

  /** A run in which the human rejects what passed: finalize rejects it and does not authorize it. */
  lemma RejectionIsFollowed()
    ensures R.Initial(START) && R.LegalRun(START, REJECTED_RUN)
    ensures var s := TheSnapshot(SHA, R.CommentsOf(R.Run(START, REJECTED_RUN).entries));
            && R.Shows(s, R.Run(START, REJECTED_RUN))
            && Decides(s, FinalizePhase, TheWorld(DIGEST), HumanRejected)
            && !Decides(s, FinalizePhase, TheWorld(DIGEST), HumanAuthorized)
  {
    hide MarkerOf, HumanReceiptOf, AllMarkers, Receipts, Grounds, BuildText, AuditText, ReceiptText, TheSnapshot, R.CommentsOf;
    var t := R.Run(START, REJECTED_RUN);
    RunOfThree(START, REJECTED_RUN[0], REJECTED_RUN[1], REJECTED_RUN[2]);
    var build := R.Entry(R.Spot(R.OnIssue, 10), BuildText(SHA, DIGEST));
    var audit := R.Entry(R.Spot(R.OnIssue, 11), AuditText(SHA, DIGEST, "PASS"));
    var receipt := R.Entry(R.Spot(R.OnIssue, 12), ReceiptText(SHA, DIGEST, Reject));
    assert t.entries == [build, audit, receipt];
    assert t.head == SHA;
    ListedOfThree(build, audit, receipt);
    EntriesDecide(build, audit, receipt, [build, audit, receipt], Reject);
    SnapshotShows(R.CommentsOf(t.entries));
    var s := TheSnapshot(SHA, R.CommentsOf(t.entries));
    if Decides(s, FinalizePhase, TheWorld(DIGEST), HumanAuthorized) {
      OneDecision(s, FinalizePhase, TheWorld(DIGEST), HumanAuthorized, HumanRejected);
    }
  }
}

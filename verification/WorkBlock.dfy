/** Work Block metadata and the single authority that may finalize an AUTO block. */
module WorkBlock {
  import opened Wrappers
  import opened Sequences
  import opened GuardText
  import opened Manifest
  import opened Markers

  datatype FieldName =
    | BlockName | RiskName | ProfileName | PolicyName | RouteName | BaseName | BranchName | WriterName
    | LegacyName | StandingName

  datatype Risk = R0 | R1 | R2 | R3
  datatype Profile = Fast | Standard | Critical
  datatype Policy = Auto | Human
  datatype Writer = Product | Governance | Ui

  datatype WorkBlock = WorkBlock(
    block: string, risk: Risk, profile: Profile, policy: Policy, route: RouteEffect,
    baseRef: string, baseSha: string, branch: string, writer: Writer,
    legacy: Option<string>, standing: Option<string>)

  // ----- Fields -----

  /** A field as the body declares it: alias resolved, value cleaned. */
  type Declaration = (FieldName, string)

  ghost predicate NamesDistinct(declared: seq<Declaration>) {
    forall i, j | 0 <= i < j < |declared| :: declared[i].0 != declared[j].0
  }

  function ValueOf(declared: seq<Declaration>, name: FieldName): Option<string> {
    if declared == [] then None
    else
      var n := |declared| - 1;
      if declared[n].0 == name then Some(declared[n].1) else ValueOf(declared[..n], name)
  }

  function RiskNamed(name: string): Guarded<Risk> {
    if name == "R0" then Pass(R0) else if name == "R1" then Pass(R1)
    else if name == "R2" then Pass(R2) else if name == "R3" then Pass(R3) else GuardFailure
  }

  function ProfileNamed(name: string): Guarded<Profile> {
    if name == "FAST" then Pass(Fast) else if name == "STANDARD" then Pass(Standard)
    else if name == "CRITICAL" then Pass(Critical) else GuardFailure
  }

  function PolicyNamed(name: string): Guarded<Policy> {
    if name == "AUTO" then Pass(Auto) else if name == "HUMAN" then Pass(Human) else GuardFailure
  }

  function WriterNamed(name: string): Guarded<Writer> {
    if name == "BUILD_PRODUCT" then Pass(Product) else if name == "BUILD_GOVERNANCE" then Pass(Governance)
    else if name == "UI_WORKER" then Pass(Ui) else GuardFailure
  }

  /** Dashes count as underscores in a writer role. */
  function Underscored(s: string): (r: string)
    ensures |r| == |s| && forall i | 0 <= i < |s| :: r[i] == if s[i] == '-' then '_' else s[i]
  {
    seq(|s|, i requires 0 <= i < |s| => if s[i] == '-' then '_' else s[i])
  }

  predicate IsAlnum(c: char) {
    'A' <= c <= 'Z' || 'a' <= c <= 'z' || '0' <= c <= '9'
  }

  predicate IsIdentifier(s: string) {
    && |s| > 0 && IsAlnum(s[0])
    && forall i | 0 <= i < |s| :: IsAlnum(s[i]) || s[i] == '.' || s[i] == '_' || s[i] == ':' || s[i] == '-'
  }

  predicate IsBranch(s: string) {
    && |s| > 0
    && forall i | 0 <= i < |s| :: IsAlnum(s[i]) || s[i] == '.' || s[i] == '_' || s[i] == '/' || s[i] == '-'
  }

  /** `ref@sha`: no blank in the ref, a full SHA after the only `@`. */
  function BaseOf(s: string): Guarded<(string, string)> {
    var k := IndexOf(s, '@');
    var _ :- Need(0 < k < |s| && (forall i | 0 <= i < k :: !IsSpace(s[i])) && IsFullSha(s[k + 1..]));
    Pass((s[..k], s[k + 1..]))
  }

  function Required(declared: seq<Declaration>, name: FieldName): Guarded<string> {
    var v := ValueOf(declared, name);
    if v.Some? && v.value != "" then Pass(v.value) else GuardFailure
  }

  predicate LegalAuthorization(id: Option<string>) {
    id.Some? ==> IsIdentifier(id.value)
  }

  /** Which authorization fields a block may carry. */
  predicate AuthorizationFits(w: WorkBlock) {
    if w.legacy.Some? then
      w.standing.None? && w.policy.Auto? && w.profile.Critical? && w.writer.Product?
    else w.standing.Some? <==> w.policy.Auto?
  }

  /** The typed block, provided every field is present once and legal. */
  function WorkBlockOf(declared: seq<Declaration>): Guarded<WorkBlock> {
    var block :- Required(declared, BlockName);
    var riskName :- Required(declared, RiskName);
    var profileName :- Required(declared, ProfileName);
    var policyName :- Required(declared, PolicyName);
    var routeName :- Required(declared, RouteName);
    var baseName :- Required(declared, BaseName);
    var branch :- Required(declared, BranchName);
    var writerName :- Required(declared, WriterName);
    var base :- BaseOf(baseName);
    var profile :- ProfileNamed(Upper(profileName));
    var risk :- RiskNamed(Upper(riskName));
    var policy :- PolicyNamed(Upper(policyName));
    var route :- RouteNamed(Upper(routeName));
    var writer :- WriterNamed(Underscored(Upper(writerName)));
    var legacy, standing := ValueOf(declared, LegacyName), ValueOf(declared, StandingName);
    var w := WorkBlock(block, risk, profile, policy, route, base.0, base.1, branch, writer, legacy, standing);
    var _ :- Need(IsIdentifier(block) && IsBranch(branch) && LegalAuthorization(legacy) && LegalAuthorization(standing));
    var _ :- Need(AuthorizationFits(w));
    Pass(w)
  }

  lemma {:induction false} ValueIsDeclared(declared: seq<Declaration>, name: FieldName)
    ensures ValueOf(declared, name).Some? <==> exists i :: 0 <= i < |declared| && declared[i].0 == name
  {
    if declared != [] {
      var n := |declared| - 1;
      ValueIsDeclared(declared[..n], name);
      assert (exists i :: 0 <= i < |declared| && declared[i].0 == name)
        <==> declared[n].0 == name || exists i :: 0 <= i < n && declared[..n][i].0 == name;
    }
  }

  /** Fills the field table, failing on the first repeated field, then reads the block off it. */
  method ParseWorkBlock(declared: seq<Declaration>) returns (r: Guarded<WorkBlock>)
    ensures r == if NamesDistinct(declared) then WorkBlockOf(declared) else GuardFailure
  {
    var values: map<FieldName, string> := map[];
    for i := 0 to |declared|
      invariant NamesDistinct(declared[..i])
      invariant forall name :: if name in values then ValueOf(declared[..i], name) == Some(values[name])
                               else ValueOf(declared[..i], name).None?
    {
      var (name, value) := declared[i];
      assert declared[..i + 1] == declared[..i] + [declared[i]];
      ValueIsDeclared(declared[..i], name);
      if name in values {
        return GuardFailure;
      }
      values := values[name := value];
    }
    assert declared[..|declared|] == declared;
    r := WorkBlockOf(declared);
  }

  /** An accepted AUTO block names exactly one authorization, a HUMAN block none. */
  lemma AuthorizationIsSingle(declared: seq<Declaration>, w: WorkBlock)
    requires WorkBlockOf(declared) == Pass(w)
    ensures w.policy.Auto? ==> (w.legacy.Some? <==> w.standing.None?)
    ensures w.policy.Human? ==> w.legacy.None? && w.standing.None?
    ensures w.legacy.Some? ==> w.profile.Critical? && w.writer.Product?
    ensures IsFullSha(w.baseSha)
  {
    hide ValueOf, RiskNamed, ProfileNamed, PolicyNamed, WriterNamed, RouteNamed, IsIdentifier, IsBranch, Upper, Underscored;
  }

  // ----- Policies -----

  datatype BoundBlock = BoundBlock(block: string, branch: string, route: RouteEffect)

  datatype LegacyGrant = LegacyGrant(
    id: string, finalizeOnly: bool, writer: Writer, profile: Profile, policy: Policy, routeItem: string,
    blocks: seq<BoundBlock>)

  datatype StandingGrant = StandingGrant(
    id: string, repository: string, finalizeOnly: bool, writers: seq<Writer>, profiles: seq<Profile>,
    policy: Policy, active: bool)

  /** A decoded policy file with the digest of its bytes. */
  datatype PolicyFile = PolicyFile(legacy: seq<LegacyGrant>, standing: seq<StandingGrant>, digest: string)

  /** What git and the live repository say: the policy at the base and at live main. */
  datatype Policies = Policies(base: Guarded<PolicyFile>, liveSha: string, live: Guarded<PolicyFile>)

  datatype LegacyEvidence = LegacyEvidence(id: string, baseSha: string, digest: string)

  datatype StandingEvidence = StandingEvidence(
    id: string, repository: string, baseSha: string, digest: string, liveMain: Option<string>)

  datatype Authority = Authority(legacy: Option<LegacyEvidence>, standing: Option<StandingEvidence>)

  const NO_AUTHORITY := Authority(None, None)

  function FirstLegacy(grants: seq<LegacyGrant>, id: string): Option<LegacyGrant> {
    if grants == [] then None
    else if grants[0].id == id then Some(grants[0])
    else FirstLegacy(grants[1..], id)
  }

  function FirstStanding(grants: seq<StandingGrant>, id: string): Option<StandingGrant> {
    if grants == [] then None
    else if grants[0].id == id then Some(grants[0])
    else FirstStanding(grants[1..], id)
  }

  predicate LegacyBinds(w: WorkBlock, g: LegacyGrant) {
    && g.finalizeOnly && g.writer == w.writer && g.profile == w.profile && g.policy == w.policy
    && g.routeItem + "-" <= w.block
    && BoundBlock(w.block, w.branch, w.route) in g.blocks
  }

  predicate StandingBinds(w: WorkBlock, repository: string, g: StandingGrant) {
    && g.active && g.repository == repository && g.finalizeOnly && g.policy.Auto?
    && w.writer in g.writers && w.profile in g.profiles
  }

  function LegacyAuthority(w: WorkBlock, policies: Policies): Guarded<Option<LegacyEvidence>> {
    if !w.profile.Critical? || !w.policy.Auto? || w.legacy.None? then Pass(None)
    else
      var file :- policies.base;
      var grant := FirstLegacy(file.legacy, w.legacy.value);
      var _ :- Need(grant.Some? && LegacyBinds(w, grant.value));
      Pass(Some(LegacyEvidence(grant.value.id, w.baseSha, file.digest)))
  }

  /** Outside BUILD the grant must also stand, unchanged, in live main. */
  function StandingAuthority(w: WorkBlock, repository: Option<string>, phase: Phase, policies: Policies)
    : Guarded<Option<StandingEvidence>>
  {
    if !w.policy.Auto? || w.standing.None? then Pass(None)
    else
      var _ :- Need(repository.Some?);
      var file :- policies.base;
      var grant := FirstStanding(file.standing, w.standing.value);
      var _ :- Need(grant.Some? && StandingBinds(w, repository.value, grant.value));
      if phase.BuildPhase? then
        Pass(Some(StandingEvidence(grant.value.id, repository.value, w.baseSha, file.digest, None)))
      else
        var _ :- Need(IsFullSha(policies.liveSha));
        var live :- policies.live;
        var now := FirstStanding(live.standing, grant.value.id);
        var _ :- Need(now.Some? && StandingBinds(w, repository.value, now.value) && now.value == grant.value);
        Pass(Some(StandingEvidence(grant.value.id, repository.value, w.baseSha, file.digest, Some(policies.liveSha))))
  }

  function FinalizationAuthority(w: WorkBlock, repository: Option<string>, phase: Phase, policies: Policies)
    : Guarded<Authority>
  {
    if !w.policy.Auto? then Pass(NO_AUTHORITY)
    else if w.legacy.Some? then
      var legacy :- LegacyAuthority(w, policies);
      Pass(Authority(legacy, None))
    else if w.standing.Some? then
      var standing :- StandingAuthority(w, repository, phase, policies);
      Pass(Authority(None, standing))
    else GuardFailure
  }

  /** The conditions under which an accepted block has its authority, in one place. */
  ghost predicate Authorized(w: WorkBlock, repository: Option<string>, phase: Phase, policies: Policies) {
    w.policy.Human?
    || (policies.base.Pass?
        && (w.legacy.Some? ==>
              exists g :: FirstLegacy(policies.base.value.legacy, w.legacy.value) == Some(g) && LegacyBinds(w, g))
        && (w.standing.Some? ==>
              repository.Some?
              && exists g :: FirstStanding(policies.base.value.standing, w.standing.value) == Some(g)
                   && StandingBinds(w, repository.value, g)
                   && (phase.BuildPhase?
                       || (IsFullSha(policies.liveSha) && policies.live.Pass?
                           && FirstStanding(policies.live.value.standing, g.id) == Some(g)))))
  }

  /**
   * For every accepted block the authority is single: AUTO gets exactly one of the two kinds of evidence
   * or fails, HUMAN gets none, and the closing failure of the resolution is never the reason.
   */
  lemma AuthorityIsSingle(
    declared: seq<Declaration>, w: WorkBlock, repository: Option<string>, phase: Phase, policies: Policies)
    requires WorkBlockOf(declared) == Pass(w)
    ensures w.policy.Auto? ==> w.legacy.Some? || w.standing.Some?
    ensures var a := FinalizationAuthority(w, repository, phase, policies);
            && (a.Pass? <==> Authorized(w, repository, phase, policies))
            && (a.Pass? && w.policy.Auto? ==> (a.value.legacy.Some? <==> a.value.standing.None?))
            && (a.Pass? && w.policy.Human? ==> a.value == NO_AUTHORITY)
            && (a.Pass? && a.value.standing.Some? ==>
                  a.value.standing.value.liveMain == if phase.BuildPhase? then None else Some(policies.liveSha))
  {
    hide WorkBlockOf, FirstStanding, FirstLegacy, StandingBinds, LegacyBinds, IsFullSha;
    AuthorizationIsSingle(declared, w);
    if policies.base.Pass? && w.standing.Some? {
      FirstIsNamed(policies.base.value.standing, w.standing.value);
    }
  }

  lemma {:induction false} FirstIsNamed(grants: seq<StandingGrant>, id: string)
    ensures FirstStanding(grants, id).Some? ==> FirstStanding(grants, id).value.id == id
    ensures FirstStanding(grants, id).Some? ==> FirstStanding(grants, id).value in grants
  {
    if grants != [] {
      FirstIsNamed(grants[1..], id);
    }
  }
}

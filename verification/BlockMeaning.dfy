/** What the fields of a Work Block and the grants of a policy say, spelled out by their texts. */
module BlockMeaning {
  import opened Wrappers
  import opened Sequences
  import opened GuardText
  import opened Manifest
  import opened Markers
  import opened WorkBlock

  /** The block declares the field with this value. */
  ghost predicate Field(declared: seq<Declaration>, name: FieldName, value: string) {
    exists i :: 0 <= i < |declared| && declared[i] == (name, value)
  }

  /** The value, in whatever case it is written, is this word. */
  ghost predicate Word(declared: seq<Declaration>, name: FieldName, word: string) {
    exists value :: Field(declared, name, value) && Upper(value) == word
  }

  function RiskText(risk: Risk): string {
    match risk case R0 => "R0" case R1 => "R1" case R2 => "R2" case R3 => "R3"
  }

  function ProfileText(profile: Profile): string {
    match profile case Fast => "FAST" case Standard => "STANDARD" case Critical => "CRITICAL"
  }

  function PolicyText(policy: Policy): string {
    match policy case Auto => "AUTO" case Human => "HUMAN"
  }

  function RouteText(route: RouteEffect): string {
    match route case NoEffect => "NONE" case Advances => "ADVANCES" case Completes => "COMPLETES"
  }

  function WriterText(writer: Writer): string {
    match writer case Product => "BUILD_PRODUCT" case Governance => "BUILD_GOVERNANCE" case Ui => "UI_WORKER"
  }

  predicate IsAlphanumeric(c: char) {
    'A' <= c <= 'Z' || 'a' <= c <= 'z' || '0' <= c <= '9'
  }

  predicate IsId(text: string) {
    text != "" && IsAlphanumeric(text[0]) && forall c | c in text :: IsAlphanumeric(c) || c == '.' || c == '_' || c == ':' || c == '-'
  }

  predicate IsBranchName(text: string) {
    text != "" && forall c | c in text :: IsAlphanumeric(c) || c == '.' || c == '_' || c == '/' || c == '-'
  }

  predicate IsCommit(text: string) {
    |text| == 40 && forall c | c in text :: '0' <= c <= '9' || 'a' <= c <= 'f'
  }

  /** A field that may be missing. */
  ghost predicate Optionally(declared: seq<Declaration>, name: FieldName, value: Option<string>) {
    match value
    case Some(id) => Field(declared, name, id) && IsId(id)
    case None => forall id :: !Field(declared, name, id)
  }

  /** AUTO carries one authorization, the older kind for critical product work only; HUMAN carries none. */
  predicate Authorizes(w: WorkBlock) {
    match w.policy
    case Human => w.legacy == None && w.standing == None
    case Auto =>
      || (w.legacy == None && w.standing != None)
      || (w.legacy != None && w.standing == None && w.profile == Critical && w.writer == Product)
  }

  ghost predicate BlockReads(declared: seq<Declaration>, w: WorkBlock) {
    && Field(declared, BlockName, w.block) && IsId(w.block)
    && Field(declared, BranchName, w.branch) && IsBranchName(w.branch)
    && Field(declared, BaseName, w.baseRef + "@" + w.baseSha)
    && w.baseRef != "" && (forall c | c in w.baseRef :: c != '@' && !IsSpace(c)) && IsCommit(w.baseSha)
    && Word(declared, RiskName, RiskText(w.risk)) && Word(declared, ProfileName, ProfileText(w.profile))
    && Word(declared, PolicyName, PolicyText(w.policy)) && Word(declared, RouteName, RouteText(w.route))
    && (exists value :: Field(declared, WriterName, value) && Underscored(Upper(value)) == WriterText(w.writer))
    && Optionally(declared, LegacyName, w.legacy) && Optionally(declared, StandingName, w.standing)
    && Authorizes(w)
  }

  lemma Letters()
    ensures Upper("abcdefghijklmnopqrstuvwxyz") == "ABCDEFGHIJKLMNOPQRSTUVWXYZ"
    ensures forall c: char :: c !in "abcdefghijklmnopqrstuvwxyz" ==> UpperChar(c) == c
  {
    var small, big := "abcdefghijklmnopqrstuvwxyz", "ABCDEFGHIJKLMNOPQRSTUVWXYZ";
    forall i | 0 <= i < 26 ensures Upper(small)[i] == big[i] && small[i] == ((('a' as int) + i) as char) {
    }
    forall c: char | 'a' <= c <= 'z' ensures c in small {
      assert small[(c as int) - ('a' as int)] == c;
    }
  }

  lemma {:induction false} FieldValue(declared: seq<Declaration>, name: FieldName, value: string)
    requires NamesDistinct(declared)
    ensures ValueOf(declared, name) == Some(value) <==> Field(declared, name, value)
  {
    if declared != [] {
      var n := |declared| - 1;
      FieldValue(declared[..n], name, value);
      assert forall i | 0 <= i < n :: declared[..n][i] == declared[i];
      if Field(declared, name, value) {
        var i :| 0 <= i < |declared| && declared[i] == (name, value);
        assert i < n ==> declared[..n][i] == (name, value);
      }
    }
  }

  lemma FieldMissing(declared: seq<Declaration>, name: FieldName)
    requires NamesDistinct(declared)
    ensures ValueOf(declared, name) == None <==> forall value :: !Field(declared, name, value)
  {
    hide Field;
    forall value ensures ValueOf(declared, name) == Some(value) <==> Field(declared, name, value) {
      FieldValue(declared, name, value);
    }
    if ValueOf(declared, name).Some? {
      assert Field(declared, name, ValueOf(declared, name).value);
    }
  }

  lemma IdsMean(text: string)
    ensures IsId(text) <==> IsIdentifier(text)
    ensures IsBranchName(text) <==> IsBranch(text)
    ensures IsCommit(text) <==> IsFullSha(text)
  {
    assert forall i | 0 <= i < |text| :: text[i] in text;
  }

  lemma BaseMeans(text: string, ref: string, sha: string)
    ensures BaseOf(text) == Pass((ref, sha)) <==>
              && text == ref + "@" + sha && ref != "" && (forall c | c in ref :: c != '@' && !IsSpace(c)) && IsCommit(sha)
  {
    hide IsSpace;
    IdsMean(sha);
    IndexIsFirst(text, '@');
    var k := IndexOf(text, '@');
    if BaseOf(text) == Pass((ref, sha)) {
      assert text == text[..k] + "@" + text[k + 1..];
      forall c | c in ref ensures c != '@' && !IsSpace(c) {
        var i :| 0 <= i < |ref| && ref[i] == c;
        assert text[i] == c;
      }
    }
    if text == ref + "@" + sha && ref != "" && (forall c | c in ref :: c != '@' && !IsSpace(c)) && IsCommit(sha) {
      assert text[|ref|] == '@' && forall i | 0 <= i < |ref| :: text[i] == ref[i] && ref[i] in ref;
      assert k == |ref| && text[..k] == ref && text[k + 1..] == sha;
    }
  }

  lemma WordsMean(text: string)
    ensures forall risk :: RiskNamed(text) == Pass(risk) <==> text == RiskText(risk)
    ensures forall profile :: ProfileNamed(text) == Pass(profile) <==> text == ProfileText(profile)
    ensures forall policy :: PolicyNamed(text) == Pass(policy) <==> text == PolicyText(policy)
    ensures forall route :: RouteNamed(text) == Pass(route) <==> text == RouteText(route)
    ensures forall writer :: WriterNamed(text) == Pass(writer) <==> text == WriterText(writer)
  {
  }

  lemma RequiredMeans(declared: seq<Declaration>, name: FieldName, value: string)
    requires NamesDistinct(declared)
    ensures Required(declared, name) == Pass(value) <==> Field(declared, name, value) && value != ""
  {
    hide Field;
    FieldValue(declared, name, value);
  }

  /** Each typed field on its own, in the order in which the block is read. */
  ghost predicate FieldsRead(declared: seq<Declaration>, w: WorkBlock) {
    && Required(declared, BlockName) == Pass(w.block) && Required(declared, BranchName) == Pass(w.branch)
    && Required(declared, BaseName).Pass? && BaseOf(Required(declared, BaseName).value) == Pass((w.baseRef, w.baseSha))
    && Required(declared, RiskName).Pass? && RiskNamed(Upper(Required(declared, RiskName).value)) == Pass(w.risk)
    && Required(declared, ProfileName).Pass? && ProfileNamed(Upper(Required(declared, ProfileName).value)) == Pass(w.profile)
    && Required(declared, PolicyName).Pass? && PolicyNamed(Upper(Required(declared, PolicyName).value)) == Pass(w.policy)
    && Required(declared, RouteName).Pass? && RouteNamed(Upper(Required(declared, RouteName).value)) == Pass(w.route)
    && Required(declared, WriterName).Pass?
    && WriterNamed(Underscored(Upper(Required(declared, WriterName).value))) == Pass(w.writer)
    && w.legacy == ValueOf(declared, LegacyName) && w.standing == ValueOf(declared, StandingName)
  }

  lemma BlockIsFields(declared: seq<Declaration>, w: WorkBlock)
    ensures WorkBlockOf(declared) == Pass(w) <==>
              && FieldsRead(declared, w) && IsIdentifier(w.block) && IsBranch(w.branch)
              && LegalAuthorization(w.legacy) && LegalAuthorization(w.standing) && AuthorizationFits(w)
  {
    hide Required, ValueOf, BaseOf, RiskNamed, ProfileNamed, PolicyNamed, RouteNamed, WriterNamed, Upper, Underscored,
         IsIdentifier, IsBranch, LegalAuthorization, AuthorizationFits;
  }

  lemma WordMeans(declared: seq<Declaration>, name: FieldName, word: string)
    requires NamesDistinct(declared) && word != ""
    ensures Word(declared, name, word) <==> Required(declared, name).Pass? && Upper(Required(declared, name).value) == word
  {
    hide Field;
    forall value ensures Required(declared, name) == Pass(value) <==> Field(declared, name, value) && value != "" {
      RequiredMeans(declared, name, value);
    }
    if Word(declared, name, word) {
      var value :| Field(declared, name, value) && Upper(value) == word;
      assert value != "";
    }
  }

  lemma OptionallyMeans(declared: seq<Declaration>, name: FieldName, value: Option<string>)
    requires NamesDistinct(declared)
    ensures Optionally(declared, name, value) <==> value == ValueOf(declared, name) && LegalAuthorization(value)
  {
    hide Field, IsId, IsIdentifier;
    FieldMissing(declared, name);
    if value.Some? {
      FieldValue(declared, name, value.value);
      IdsMean(value.value);
    }
  }

  /** A body reads as this Work Block if and only if its fields say so. */
  lemma BlockMeans(declared: seq<Declaration>, w: WorkBlock)
    requires NamesDistinct(declared)
    ensures WorkBlockOf(declared) == Pass(w) <==> BlockReads(declared, w)
  {
    BlockIsFields(declared, w);
    TextsMean(declared, w);
    WordsRead(declared, w);
    IdsMean(w.block);
    IdsMean(w.branch);
    OptionallyMeans(declared, LegacyName, w.legacy);
    OptionallyMeans(declared, StandingName, w.standing);
    AuthorizesMeans(w);
    hide Required, ValueOf, BaseOf, RiskNamed, ProfileNamed, PolicyNamed, RouteNamed, WriterNamed, Upper, Underscored,
         IsIdentifier, IsBranch, LegalAuthorization, IsId, IsBranchName, IsCommit, Field, Word, Optionally, NamesDistinct,
         WorkBlockOf, Authorizes, AuthorizationFits, RiskText, ProfileText, PolicyText, RouteText, WriterText;
  }

  lemma AuthorizesMeans(w: WorkBlock)
    ensures Authorizes(w) <==> AuthorizationFits(w)
  {
  }

  lemma TextsMean(declared: seq<Declaration>, w: WorkBlock)
    requires NamesDistinct(declared)
    ensures Required(declared, BlockName) == Pass(w.block) <==> Field(declared, BlockName, w.block) && w.block != ""
    ensures Required(declared, BranchName) == Pass(w.branch) <==> Field(declared, BranchName, w.branch) && w.branch != ""
    ensures Required(declared, BaseName).Pass? && BaseOf(Required(declared, BaseName).value) == Pass((w.baseRef, w.baseSha)) <==>
              && Field(declared, BaseName, w.baseRef + "@" + w.baseSha)
              && w.baseRef != "" && (forall c | c in w.baseRef :: c != '@' && !IsSpace(c)) && IsCommit(w.baseSha)
    ensures IsId(w.block) ==> w.block != ""
    ensures IsBranchName(w.branch) ==> w.branch != ""
  {
    hide Required, BaseOf, Field, IsSpace, IsCommit;
    RequiredMeans(declared, BlockName, w.block);
    RequiredMeans(declared, BranchName, w.branch);
    RequiredMeans(declared, BaseName, w.baseRef + "@" + w.baseSha);
    if Required(declared, BaseName).Pass? {
      BaseMeans(Required(declared, BaseName).value, w.baseRef, w.baseSha);
      RequiredMeans(declared, BaseName, Required(declared, BaseName).value);
    }
  }

  lemma WordsRead(declared: seq<Declaration>, w: WorkBlock)
    requires NamesDistinct(declared)
    ensures Word(declared, RiskName, RiskText(w.risk)) <==>
              Required(declared, RiskName).Pass? && RiskNamed(Upper(Required(declared, RiskName).value)) == Pass(w.risk)
    ensures Word(declared, ProfileName, ProfileText(w.profile)) <==>
              Required(declared, ProfileName).Pass? && ProfileNamed(Upper(Required(declared, ProfileName).value)) == Pass(w.profile)
    ensures Word(declared, PolicyName, PolicyText(w.policy)) <==>
              Required(declared, PolicyName).Pass? && PolicyNamed(Upper(Required(declared, PolicyName).value)) == Pass(w.policy)
    ensures Word(declared, RouteName, RouteText(w.route)) <==>
              Required(declared, RouteName).Pass? && RouteNamed(Upper(Required(declared, RouteName).value)) == Pass(w.route)
    ensures (exists value :: Field(declared, WriterName, value) && Underscored(Upper(value)) == WriterText(w.writer)) <==>
              Required(declared, WriterName).Pass?
              && WriterNamed(Underscored(Upper(Required(declared, WriterName).value))) == Pass(w.writer)
  {
    TextsAreNotEmpty(w);
    hide Required, Field, Word, Upper, Underscored, RiskNamed, ProfileNamed, PolicyNamed, RouteNamed, WriterNamed,
         RiskText, ProfileText, PolicyText, RouteText, WriterText;
    WordMeans(declared, RiskName, RiskText(w.risk));
    WordMeans(declared, ProfileName, ProfileText(w.profile));
    WordMeans(declared, PolicyName, PolicyText(w.policy));
    WordMeans(declared, RouteName, RouteText(w.route));
    forall text ensures RiskNamed(text) == Pass(w.risk) <==> text == RiskText(w.risk) {
      WordsMean(text);
    }
    forall text ensures ProfileNamed(text) == Pass(w.profile) <==> text == ProfileText(w.profile) {
      WordsMean(text);
    }
    forall text ensures PolicyNamed(text) == Pass(w.policy) <==> text == PolicyText(w.policy) {
      WordsMean(text);
    }
    forall text ensures RouteNamed(text) == Pass(w.route) <==> text == RouteText(w.route) {
      WordsMean(text);
    }
    WriterRead(declared, w);
  }

  lemma TextsAreNotEmpty(w: WorkBlock)
    ensures RiskText(w.risk) != "" && ProfileText(w.profile) != "" && PolicyText(w.policy) != "" && RouteText(w.route) != ""
    ensures WriterText(w.writer) != ""
  {
  }

  lemma WriterRead(declared: seq<Declaration>, w: WorkBlock)
    requires NamesDistinct(declared) && WriterText(w.writer) != ""
    ensures (exists value :: Field(declared, WriterName, value) && Underscored(Upper(value)) == WriterText(w.writer)) <==>
              Required(declared, WriterName).Pass?
              && WriterNamed(Underscored(Upper(Required(declared, WriterName).value))) == Pass(w.writer)
  {
    hide Required, Field, WriterText, WriterNamed;
    forall value ensures Required(declared, WriterName) == Pass(value) <==> Field(declared, WriterName, value) && value != "" {
      RequiredMeans(declared, WriterName, value);
    }
    if Required(declared, WriterName).Pass? {
      WordsMean(Underscored(Upper(Required(declared, WriterName).value)));
    }
    if value :| Field(declared, WriterName, value) && Underscored(Upper(value)) == WriterText(w.writer) {
      assert value != "";
      WordsMean(Underscored(Upper(value)));
    }
  }

  // ----- Grants -----

  /** The first grant of the list that has this id. */
  ghost predicate FirstLegacyIs(grants: seq<LegacyGrant>, id: string, g: LegacyGrant) {
    exists i :: 0 <= i < |grants| && grants[i] == g && g.id == id && forall j | 0 <= j < i :: grants[j].id != id
  }

  ghost predicate FirstStandingIs(grants: seq<StandingGrant>, id: string, g: StandingGrant) {
    exists i :: 0 <= i < |grants| && grants[i] == g && g.id == id && forall j | 0 <= j < i :: grants[j].id != id
  }

  /** The older grant names the block with its branch and effect, under its own route item. */
  ghost predicate LegacyCovers(g: LegacyGrant, w: WorkBlock) {
    && g.finalizeOnly && g.writer == w.writer && g.profile == w.profile && g.policy == w.policy
    && (exists rest :: w.block == g.routeItem + "-" + rest)
    && exists b :: b in g.blocks && b.block == w.block && b.branch == w.branch && b.route == w.route
  }

  ghost predicate StandingCovers(g: StandingGrant, w: WorkBlock, repository: string) {
    && g.active && g.finalizeOnly && g.repository == repository && g.policy == Auto
    && (exists i :: 0 <= i < |g.writers| && g.writers[i] == w.writer)
    && exists i :: 0 <= i < |g.profiles| && g.profiles[i] == w.profile
  }

  /** The authority a block has in a phase, and the evidence for it. */
  ghost predicate Grants(w: WorkBlock, repository: Option<string>, phase: Phase, policies: Policies, a: Authority) {
    match w.policy
    case Human => a == Authority(None, None)
    case Auto =>
      && policies.base.Pass?
      && if w.legacy.Some? then
           && (exists g :: FirstLegacyIs(policies.base.value.legacy, w.legacy.value, g) && LegacyCovers(g, w))
           && a == Authority(Some(LegacyEvidence(w.legacy.value, w.baseSha, policies.base.value.digest)), None)
         else
           && w.standing.Some? && repository.Some?
           && (exists g ::
                 && FirstStandingIs(policies.base.value.standing, w.standing.value, g)
                 && StandingCovers(g, w, repository.value)
                 && (phase != BuildPhase ==>
                       policies.live.Pass? && FirstStandingIs(policies.live.value.standing, w.standing.value, g)))
           && (phase != BuildPhase ==> IsCommit(policies.liveSha))
           && a == Authority(None, Some(StandingEvidence(
                w.standing.value, repository.value, w.baseSha, policies.base.value.digest,
                if phase == BuildPhase then None else Some(policies.liveSha))))
  }

  lemma {:induction false} FirstLegacyMeans(grants: seq<LegacyGrant>, id: string, g: LegacyGrant)
    ensures FirstLegacy(grants, id) == Some(g) <==> FirstLegacyIs(grants, id, g)
  {
    if grants != [] && grants[0].id != id {
      FirstLegacyMeans(grants[1..], id, g);
      if i :| 0 <= i < |grants| && grants[i] == g && g.id == id && forall j | 0 <= j < i :: grants[j].id != id {
        assert grants[1..][i - 1] == g;
        assert forall j | 0 <= j < i - 1 :: grants[1..][j] == grants[j + 1];
      }
      if i :| 0 <= i < |grants| - 1 && grants[1..][i] == g && g.id == id && forall j | 0 <= j < i :: grants[1..][j].id != id {
        assert grants[i + 1] == g;
        assert forall j | 0 < j < i + 1 :: grants[j] == grants[1..][j - 1];
      }
    }
  }

  lemma {:induction false} FirstStandingMeans(grants: seq<StandingGrant>, id: string, g: StandingGrant)
    ensures FirstStanding(grants, id) == Some(g) <==> FirstStandingIs(grants, id, g)
  {
    if grants != [] && grants[0].id != id {
      FirstStandingMeans(grants[1..], id, g);
      if i :| 0 <= i < |grants| && grants[i] == g && g.id == id && forall j | 0 <= j < i :: grants[j].id != id {
        assert grants[1..][i - 1] == g;
        assert forall j | 0 <= j < i - 1 :: grants[1..][j] == grants[j + 1];
      }
      if i :| 0 <= i < |grants| - 1 && grants[1..][i] == g && g.id == id && forall j | 0 <= j < i :: grants[1..][j].id != id {
        assert grants[i + 1] == g;
        assert forall j | 0 < j < i + 1 :: grants[j] == grants[1..][j - 1];
      }
    }
  }

  lemma LegacyCoversMeans(g: LegacyGrant, w: WorkBlock)
    ensures LegacyCovers(g, w) <==> LegacyBinds(w, g)
  {
    var stem := g.routeItem + "-";
    if stem <= w.block {
      assert w.block == g.routeItem + "-" + w.block[|stem|..];
    }
    if BoundBlock(w.block, w.branch, w.route) in g.blocks {
      var b := BoundBlock(w.block, w.branch, w.route);
      assert b.block == w.block && b.branch == w.branch && b.route == w.route;
    }
  }

  lemma StandingCoversMeans(g: StandingGrant, w: WorkBlock, repository: string)
    ensures StandingCovers(g, w, repository) <==> StandingBinds(w, repository, g)
  {
  }

  lemma FirstsMean(policies: Policies, id: string)
    requires policies.base.Pass?
    ensures forall g :: FirstLegacy(policies.base.value.legacy, id) == Some(g) <==> FirstLegacyIs(policies.base.value.legacy, id, g)
    ensures forall g :: FirstStanding(policies.base.value.standing, id) == Some(g) <==> FirstStandingIs(policies.base.value.standing, id, g)
    ensures policies.live.Pass? ==> forall g ::
              FirstStanding(policies.live.value.standing, id) == Some(g) <==> FirstStandingIs(policies.live.value.standing, id, g)
  {
    forall g ensures FirstLegacy(policies.base.value.legacy, id) == Some(g) <==> FirstLegacyIs(policies.base.value.legacy, id, g) {
      FirstLegacyMeans(policies.base.value.legacy, id, g);
    }
    forall g ensures FirstStanding(policies.base.value.standing, id) == Some(g)
                <==> FirstStandingIs(policies.base.value.standing, id, g)
    {
      FirstStandingMeans(policies.base.value.standing, id, g);
    }
    if policies.live.Pass? {
      forall g ensures FirstStanding(policies.live.value.standing, id) == Some(g)
                  <==> FirstStandingIs(policies.live.value.standing, id, g)
      {
        FirstStandingMeans(policies.live.value.standing, id, g);
      }
    }
  }

  lemma LegacyMeans(w: WorkBlock, repository: Option<string>, phase: Phase, policies: Policies, a: Authority)
    requires Authorizes(w) && w.policy.Auto? && w.legacy.Some?
    ensures FinalizationAuthority(w, repository, phase, policies) == Pass(a) <==> Grants(w, repository, phase, policies, a)
  {
    hide FirstLegacy, FirstLegacyIs, LegacyCovers, LegacyBinds, FirstStanding, StandingAuthority;
    if policies.base.Pass? {
      FirstsMean(policies, w.legacy.value);
      forall g ensures LegacyCovers(g, w) <==> LegacyBinds(w, g) {
        LegacyCoversMeans(g, w);
      }
      FirstHasId(policies.base.value.legacy, w.legacy.value);
    }
  }

  lemma FirstHasId(grants: seq<LegacyGrant>, id: string)
    ensures FirstLegacy(grants, id).Some? ==> FirstLegacy(grants, id).value.id == id
  {
    if FirstLegacy(grants, id).Some? {
      FirstLegacyMeans(grants, id, FirstLegacy(grants, id).value);
    }
  }

  lemma StandingMeans(w: WorkBlock, repository: Option<string>, phase: Phase, policies: Policies, a: Authority)
    requires Authorizes(w) && w.policy.Auto? && w.legacy.None?
    ensures FinalizationAuthority(w, repository, phase, policies) == Pass(a) <==> Grants(w, repository, phase, policies, a)
  {
    hide FirstStanding, FirstStandingIs, StandingCovers, StandingBinds, FirstLegacy, LegacyAuthority, IsCommit, IsFullSha;
    IdsMean(policies.liveSha);
    if policies.base.Pass? && repository.Some? {
      FirstsMean(policies, w.standing.value);
      forall g ensures StandingCovers(g, w, repository.value) <==> StandingBinds(w, repository.value, g) {
        StandingCoversMeans(g, w, repository.value);
      }
      FirstIsNamed(policies.base.value.standing, w.standing.value);
    }
  }

  /**
   * The authority of an accepted block, exactly: HUMAN has none, AUTO the one grant its field names, which
   * must cover the block and, outside the build phase, stand unchanged in live main; the evidence says so.
   */
  lemma AuthorityMeans(
    declared: seq<Declaration>, w: WorkBlock, repository: Option<string>, phase: Phase, policies: Policies, a: Authority)
    requires NamesDistinct(declared) && WorkBlockOf(declared) == Pass(w)
    ensures FinalizationAuthority(w, repository, phase, policies) == Pass(a) <==> Grants(w, repository, phase, policies, a)
  {
    hide WorkBlockOf, FinalizationAuthority, Grants, NamesDistinct;
    BlockMeans(declared, w);
    if w.policy.Human? {
      HumanMeans(w, repository, phase, policies, a);
    } else if w.legacy.Some? {
      LegacyMeans(w, repository, phase, policies, a);
    } else {
      StandingMeans(w, repository, phase, policies, a);
    }
  }

  lemma HumanMeans(w: WorkBlock, repository: Option<string>, phase: Phase, policies: Policies, a: Authority)
    requires w.policy.Human?
    ensures FinalizationAuthority(w, repository, phase, policies) == Pass(a) <==> Grants(w, repository, phase, policies, a)
  {
  }
}

/** What a manifest document says and when its requirements are met, spelled out by their texts. */
module ManifestMeaning {
  import opened Wrappers
  import opened Sequences
  import opened GuardText
  import opened MarkerText
  import opened Manifest
  import opened ScopeCheck
  import opened Snapshot

  // ----- Requirements -----

  function KindText(kind: RequirementKind): string {
    match kind
    case ChangedPathKind => "changed_path"
    case PresentPathKind => "present_path"
    case FocusedTest => "focused_test"
    case Ci => "ci"
    case SmokeKind => "smoke"
    case LiveProbe => "live_probe"
    case RouteTransition => "route_transition"
  }

  predicate IsRequirement(text: string, kind: RequirementKind, value: string) {
    text == KindText(kind) + ":" + value && value != ""
  }

  lemma KindsMean(name: string)
    ensures forall kind :: RequirementKindNamed(name) == Pass(kind) <==> name == KindText(kind)
  {
  }

  lemma KindHasNoColon(kind: RequirementKind)
    ensures ':' !in KindText(kind)
  {
  }

  lemma RequirementMeans(text: string, kind: RequirementKind, value: string)
    ensures RequirementOf(text) == Pass(Requirement(kind, value)) <==> IsRequirement(text, kind, value)
  {
    hide KindText, RequirementKindNamed;
    var k := IndexOf(text, ':');
    IndexIsFirst(text, ':');
    if RequirementOf(text) == Pass(Requirement(kind, value)) {
      KindsMean(text[..k]);
      assert text == text[..k] + ":" + text[k + 1..];
    }
    if IsRequirement(text, kind, value) {
      var name := KindText(kind);
      KindHasNoColon(kind);
      assert text[|name|] == ':' && forall i | 0 <= i < |name| :: text[i] == name[i] && name[i] in name;
      assert k == |name| && text[..k] == name && text[k + 1..] == value;
      KindsMean(name);
    }
  }

  // ----- The document -----

  function ItemKindText(kind: ItemKind): string {
    match kind case Acceptance => "acceptance" case Invariant => "invariant" case Negative => "negative"
  }

  function EffectText(route: RouteEffect): string {
    match route case NoEffect => "NONE" case Advances => "ADVANCES" case Completes => "COMPLETES"
  }

  predicate IsItemName(id: string) {
    && id != "" && 'A' <= id[0] <= 'Z'
    && forall c | c in id :: 'A' <= c <= 'Z' || '0' <= c <= '9' || c == '_' || c == '-'
  }

  ghost predicate ListsRequirements(elements: seq<Json>, requirements: seq<string>) {
    && |elements| == |requirements| && requirements != []
    && (forall i | 0 <= i < |elements| :: elements[i] == Text(requirements[i]))
    && (forall text | text in requirements :: exists kind, value :: IsRequirement(text, kind, value))
    && forall i, j | 0 <= i < j < |requirements| :: requirements[i] != requirements[j]
  }

  ghost predicate ItemElement(json: Json, item: Item) {
    && json.Object? && Names(json.members) == {"id", "kind", "requirements"}
    && Says(json.members, "id", Text(item.id)) && IsItemName(item.id)
    && Says(json.members, "kind", Text(ItemKindText(item.kind)))
    && exists elements :: Says(json.members, "requirements", Array(elements)) && ListsRequirements(elements, item.requirements)
  }

  ghost predicate ItemElements(elements: seq<Json>, items: seq<Item>) {
    && |elements| == |items| && items != []
    && (forall i | 0 <= i < |items| :: ItemElement(elements[i], items[i]))
    && forall i, j | 0 <= i < j < |items| :: items[i].id != items[j].id
  }

  ghost predicate ManifestDocument(json: Json, m: AcceptanceManifest) {
    && json.Object? && Names(json.members) == {"schema_version", "route_effect", "items"}
    && (exists text :: Says(json.members, "route_effect", Text(text)) && Upper(text) == EffectText(m.routeEffect))
    && exists elements :: Says(json.members, "items", Array(elements)) && ItemElements(elements, m.items)
  }

  ghost predicate SaysSchema(json: Json) {
    json.Object? && Says(json.members, "schema_version", Text("workflow-acceptance-manifest-v1"))
  }

  /** All documents are objects, one of them has the schema of a manifest, and that one is the manifest. */
  ghost predicate TheManifest(documents: seq<Guarded<Json>>, m: AcceptanceManifest) {
    && (forall d | d in documents :: d.Pass? && d.value.Object?)
    && exists i :: 0 <= i < |documents| && SaysSchema(documents[i].value) && ManifestDocument(documents[i].value, m)
         && forall j | 0 <= j < |documents| && j != i :: !SaysSchema(documents[j].value)
  }

  lemma MembersSay(members: seq<(string, Json)>)
    ensures forall name, value :: Member(members, name) == Some(value) <==> Says(members, name, value)
  {
    forall name, value ensures Member(members, name) == Some(value) <==> Says(members, name, value) {
      MemberSays(members, name, value);
    }
  }

  lemma RequirementsList(elements: seq<Json>, requirements: seq<string>)
    ensures ListsRequirements(elements, requirements) <==> DescribesRequirements(elements, requirements)
  {
    hide IsRequirement, RequirementOf;
    forall text ensures RequirementOf(text).Pass? <==> exists kind, value :: IsRequirement(text, kind, value) {
      SomeRequirement(text);
    }
    assert forall i | 0 <= i < |requirements| :: requirements[i] in requirements;
  }

  lemma SomeRequirement(text: string)
    ensures RequirementOf(text).Pass? <==> exists kind, value :: IsRequirement(text, kind, value)
  {
    hide IsRequirement, RequirementOf;
    if RequirementOf(text).Pass? {
      var r := RequirementOf(text).value;
      RequirementMeans(text, r.kind, r.value);
    }
    if kind, value :| IsRequirement(text, kind, value) {
      RequirementMeans(text, kind, value);
    }
  }

  lemma ItemKindsMean(name: string)
    ensures forall kind :: ItemKindNamed(name) == Pass(kind) <==> name == ItemKindText(kind)
    ensures forall kind :: ItemKindText(kind) != ""
    ensures forall route :: RouteNamed(name) == Pass(route) <==> name == EffectText(route)
    ensures forall route :: EffectText(route) != ""
  {
  }

  lemma ItemMeans(json: Json, item: Item)
    ensures ItemElement(json, item) <==> DescribesItem(json, item)
  {
    hide Member, Names, Says, ListsRequirements, DescribesRequirements, ItemKindNamed, ItemKindText;
    if json.Object? {
      MembersSay(json.members);
      ItemKindsMean(ItemKindText(item.kind));
      if RequiredText(json.members, "kind").Pass? {
        ItemKindsMean(RequiredText(json.members, "kind").value);
      }
      forall elements ensures ListsRequirements(elements, item.requirements) <==> DescribesRequirements(elements, item.requirements) {
        RequirementsList(elements, item.requirements);
      }
      assert forall i | 0 <= i < |item.id| :: item.id[i] in item.id;
    }
  }

  lemma RoutesMean(members: seq<(string, Json)>, route: RouteEffect)
    ensures (exists text :: Says(members, "route_effect", Text(text)) && Upper(text) == EffectText(route)) <==>
              RequiredText(members, "route_effect").Pass?
              && RouteNamed(Upper(RequiredText(members, "route_effect").value)) == Pass(route)
  {
    hide Member, Names, Says, Upper, RouteNamed, EffectText;
    MembersSay(members);
    if RequiredText(members, "route_effect").Pass? {
      ItemKindsMean(Upper(RequiredText(members, "route_effect").value));
    }
    if text :| Says(members, "route_effect", Text(text)) && Upper(text) == EffectText(route) {
      ItemKindsMean(Upper(text));
      assert text != "";
    }
  }

  lemma DocumentMeans(json: Json, m: AcceptanceManifest)
    ensures ManifestDocument(json, m) <==> DescribesManifest(json, m)
  {
    hide Member, Names, Says, Upper, RouteNamed, EffectText, ItemElement, DescribesItem;
    if json.Object? {
      MembersSay(json.members);
      RoutesMean(json.members, m.routeEffect);
      forall element, item ensures ItemElement(element, item) <==> DescribesItem(element, item) {
        ItemMeans(element, item);
      }
    }
  }

  /** The manifest of a body is the one its JSON documents say, exactly. */
  lemma ManifestMeans(documents: seq<Guarded<Json>>, m: AcceptanceManifest)
    ensures DeclaresManifest(documents, m) <==> TheManifest(documents, m)
  {
    hide Member, Says, ManifestDocument, DescribesManifest;
    forall json ensures ManifestDocument(json, m) <==> DescribesManifest(json, m) {
      DocumentMeans(json, m);
    }
    forall json: Json ensures SaysSchema(json) <==> IsManifestDocument(json) {
      if json.Object? {
        MembersSay(json.members);
      }
    }
    hide SaysSchema, IsManifestDocument;
    assert forall i | 0 <= i < |documents| :: documents[i] in documents;
    if TheManifest(documents, m) {
      var i :| 0 <= i < |documents| && SaysSchema(documents[i].value) && ManifestDocument(documents[i].value, m)
               && forall j | 0 <= j < |documents| && j != i :: !SaysSchema(documents[j].value);
      assert OnlyManifest(documents, i);
    }
  }

  // ----- Requirements that are met -----

  ghost predicate IsChanged(evidence: ScopeEvidence, path: string) {
    exists c :: c in evidence.changes && c.path == path
  }

  /** The required check ran, and every run of it completed with success. */
  ghost predicate QualityIsGreen(s: Snapshot) {
    && (exists c :: c in s.checks && c.name == "Python 3.12 quality")
    && forall c | c in s.checks && c.name == "Python 3.12 quality" :: c.status == "completed" && c.conclusion == "success"
  }

  predicate SmokeIsGreen(s: Snapshot) {
    s.smoke.status == Some("PASS") && s.smoke.evidence != ""
  }

  ghost predicate OnlyItem(rows: seq<Row>, i: int, item: string) {
    0 <= i < |rows| && rows[i].item == item && forall j | 0 <= j < |rows| && rows[j].item == item :: j == i
  }

  ghost predicate OnlyNext(rows: seq<Row>, i: int) {
    0 <= i < |rows| && rows[i].state == "NEXT" && forall j | 0 <= j < |rows| && rows[j].state == "NEXT" :: j == i
  }

  /** Row `i` is the one of the item, and it shows the effect: completed with one next item, or not done. */
  ghost predicate ShownAt(value: string, route: RouteEffect, rows: seq<Row>, item: string, i: int) {
    && value == item + ":" + EffectText(route) && item != ""
    && OnlyItem(rows, i, item)
    && if route == Completes then rows[i].state == "DONE" && exists k :: OnlyNext(rows, k) else rows[i].state != "DONE"
  }

  /** The route document was changed, has one row of the item, and shows the effect that is claimed. */
  ghost predicate TransitionShown(value: string, m: AcceptanceManifest, evidence: ScopeEvidence) {
    && m.routeEffect != NoEffect && evidence.route.Some?
    && IsChanged(evidence, "docs/basic_functional_release_plan.md")
    && exists item, i :: ShownAt(value, m.routeEffect, evidence.route.value, item, i)
  }

  ghost predicate IsMet(text: string, m: AcceptanceManifest, s: Snapshot, evidence: ScopeEvidence) {
    exists kind, value :: IsRequirement(text, kind, value) && KindIsMet(kind, value, m, s, evidence)
  }

  ghost predicate KindIsMet(
    kind: RequirementKind, value: string, m: AcceptanceManifest, s: Snapshot, evidence: ScopeEvidence)
  {
    match kind
    case ChangedPathKind => IsChanged(evidence, value)
    case PresentPathKind => value in evidence.present
    case Ci => value == "Python 3.12 quality" && QualityIsGreen(s)
    case SmokeKind => SmokeIsGreen(s)
    case RouteTransition => TransitionShown(value, m, evidence)
    case FocusedTest => true
    case LiveProbe => true
  }

  /** Every requirement of every item is met, and a manifest with an effect names its transition. */
  ghost predicate AllMet(m: AcceptanceManifest, s: Snapshot, evidence: ScopeEvidence) {
    && (forall item, text | item in m.items && text in item.requirements :: IsMet(text, m, s, evidence))
    && (m.routeEffect != NoEffect ==>
          exists item, text, value ::
            item in m.items && text in item.requirements && IsRequirement(text, RouteTransition, value))
  }

  lemma ChangedMeans(evidence: ScopeEvidence, path: string)
    ensures IsChanged(evidence, path) <==> path in Changed(evidence)
  {
    var paths := Paths(evidence.changes);
    if IsChanged(evidence, path) {
      var i :| 0 <= i < |evidence.changes| && evidence.changes[i].path == path;
      assert paths[i] == path;
    }
    if path in Changed(evidence) {
      var i :| 0 <= i < |paths| && paths[i] == path;
      assert evidence.changes[i] in evidence.changes;
    }
  }

  lemma GreenMeans(s: Snapshot)
    ensures QualityIsGreen(s) <==> ChecksPass(s)
    ensures SmokeIsGreen(s) <==> SmokePasses(s)
  {
    assert forall i | 0 <= i < |s.checks| :: s.checks[i] in s.checks;
    if c :| c in s.checks && c.name == "Python 3.12 quality" {
      var i :| 0 <= i < |s.checks| && s.checks[i] == c;
      assert s.checks[i].name == QUALITY;
    }
  }

  lemma RowsMean(rows: seq<Row>, item: string)
    ensures |RowsOf(rows, item)| == 1 <==> exists i :: OnlyItem(rows, i, item)
    ensures forall i | OnlyItem(rows, i, item) :: RowsOf(rows, item) == [rows[i]]
    ensures |NextRows(rows)| == 1 <==> exists i :: OnlyNext(rows, i)
  {
    forall i | OnlyItem(rows, i, item) ensures RowsOf(rows, item) == [rows[i]] {
      FilterSingle((row: Row) => row.item == item, rows, i);
    }
    forall i | OnlyNext(rows, i) ensures NextRows(rows) == [rows[i]] {
      FilterSingle((row: Row) => row.state == "NEXT", rows, i);
    }
    if |RowsOf(rows, item)| == 1 {
      var i := RowLeft((row: Row) => row.item == item, rows);
      assert OnlyItem(rows, i, item);
    }
    if |NextRows(rows)| == 1 {
      var i := RowLeft((row: Row) => row.state == "NEXT", rows);
      assert OnlyNext(rows, i);
    }
  }

  lemma {:induction false} RowLeft(keep: Row -> bool, rows: seq<Row>) returns (i: nat)
    requires |Filter(keep, rows)| == 1
    ensures i < |rows| && keep(rows[i]) && forall j | 0 <= j < |rows| && keep(rows[j]) :: j == i
  {
    var rest := rows[1..];
    assert forall j | 0 < j < |rows| :: rows[j] == rest[j - 1];
    if keep(rows[0]) {
      i := 0;
      assert Filter(keep, rest) == [];
      forall j | 0 < j < |rows| ensures !keep(rows[j]) {
        assert rest[j - 1] in rest && !(rest[j - 1] in Filter(keep, rest));
      }
    } else {
      var k := RowLeft(keep, rest);
      i := k + 1;
    }
  }

  lemma EffectHasNoColon(route: RouteEffect)
    ensures ':' !in EffectText(route) && EffectText(route) == RouteName(route)
  {
  }

  lemma {:induction false} LastColonIs(value: string, item: string, state: string)
    requires value == item + ":" + state && ':' !in state
    ensures LastColon(value) == Some(|item|)
    decreases |state|
  {
    if state == "" {
      assert value[|value| - 1] == ':';
    } else {
      var n := |state| - 1;
      assert value[|value| - 1] == state[n] && state[n] in state;
      assert value[..|value| - 1] == item + ":" + state[..n];
      LastColonIs(value[..|value| - 1], item, state[..n]);
    }
  }

  lemma {:induction false} ColonIsThere(value: string)
    ensures LastColon(value).Some? ==> LastColon(value).value < |value| && value[LastColon(value).value] == ':'
  {
    if value != "" && value[|value| - 1] != ':' {
      ColonIsThere(value[..|value| - 1]);
    }
  }

  lemma TransitionMeans(value: string, m: AcceptanceManifest, evidence: ScopeEvidence)
    ensures TransitionShown(value, m, evidence) <==> TransitionHolds(value, m, evidence)
  {
    hide IsChanged, Changed, LastColon, OnlyItem, OnlyNext, EffectText, RouteName, RowsOf, NextRows;
    ChangedMeans(evidence, "docs/basic_functional_release_plan.md");
    EffectHasNoColon(m.routeEffect);
    ColonIsThere(value);
    if TransitionHolds(value, m, evidence) {
      var k := LastColon(value).value;
      var item := value[..k];
      assert value == item + ":" + value[k + 1..];
      RowsMean(evidence.route.value, item);
      var i :| OnlyItem(evidence.route.value, i, item);
      assert ShownAt(value, m.routeEffect, evidence.route.value, item, i);
    }
    if TransitionShown(value, m, evidence) {
      var item, i :| ShownAt(value, m.routeEffect, evidence.route.value, item, i);
      LastColonIs(value, item, EffectText(m.routeEffect));
      assert value[..|item|] == item && value[|item| + 1..] == EffectText(m.routeEffect);
      RowsMean(evidence.route.value, item);
    }
  }

  lemma KindMeans(r: Requirement, m: AcceptanceManifest, s: Snapshot, evidence: ScopeEvidence)
    ensures KindIsMet(r.kind, r.value, m, s, evidence) <==> RequirementMet(r, m, s, evidence)
  {
    hide IsChanged, Changed, QualityIsGreen, ChecksPass, TransitionShown, TransitionHolds;
    ChangedMeans(evidence, r.value);
    GreenMeans(s);
    TransitionMeans(r.value, m, evidence);
  }

  lemma TextIsMet(text: string, m: AcceptanceManifest, s: Snapshot, evidence: ScopeEvidence)
    ensures IsMet(text, m, s, evidence) <==>
              RequirementOf(text).Pass? && RequirementMet(RequirementOf(text).value, m, s, evidence)
  {
    hide IsRequirement, RequirementOf, KindIsMet, RequirementMet;
    if RequirementOf(text).Pass? {
      var r := RequirementOf(text).value;
      RequirementMeans(text, r.kind, r.value);
      KindMeans(r, m, s, evidence);
    }
    if kind, value :| IsRequirement(text, kind, value) && KindIsMet(kind, value, m, s, evidence) {
      RequirementMeans(text, kind, value);
      KindMeans(Requirement(kind, value), m, s, evidence);
    }
  }

  /** When the requirements of a manifest are met, on their texts. */
  lemma RequirementsMean(m: AcceptanceManifest, s: Snapshot, evidence: ScopeEvidence)
    ensures RequirementsMet(m, s, evidence) <==> AllMet(m, s, evidence)
  {
    hide IsRequirement, RequirementOf, IsMet, RequirementMet;
    forall text ensures IsMet(text, m, s, evidence) <==>
        RequirementOf(text).Pass? && RequirementMet(RequirementOf(text).value, m, s, evidence)
    {
      TextIsMet(text, m, s, evidence);
    }
    forall text ensures IsTransition(text) <==> exists value :: IsRequirement(text, RouteTransition, value) {
      if RequirementOf(text).Pass? {
        RequirementMeans(text, RequirementOf(text).value.kind, RequirementOf(text).value.value);
      }
      if value :| IsRequirement(text, RouteTransition, value) {
        RequirementMeans(text, RouteTransition, value);
      }
    }
    hide IsTransition;
    ItemsMean(m, s, evidence);
    if NamesTransition(m) {
      var i :| 0 <= i < |m.items| && exists j | 0 <= j < |m.items[i].requirements| :: IsTransition(m.items[i].requirements[j]);
      var j :| 0 <= j < |m.items[i].requirements| && IsTransition(m.items[i].requirements[j]);
      assert m.items[i] in m.items && m.items[i].requirements[j] in m.items[i].requirements;
    }
    if exists item, text, value ::
      item in m.items && text in item.requirements && IsRequirement(text, RouteTransition, value)
    {
      var item, text, value :|
        item in m.items && text in item.requirements && IsRequirement(text, RouteTransition, value);
      var i :| 0 <= i < |m.items| && m.items[i] == item;
      var j :| 0 <= j < |item.requirements| && item.requirements[j] == text;
      assert IsTransition(m.items[i].requirements[j]);
    }
  }

  lemma ItemsMean(m: AcceptanceManifest, s: Snapshot, evidence: ScopeEvidence)
    requires forall text :: IsMet(text, m, s, evidence) <==>
               RequirementOf(text).Pass? && RequirementMet(RequirementOf(text).value, m, s, evidence)
    ensures (forall i | 0 <= i < |m.items| :: ItemMet(m.items[i], m, s, evidence))
       <==> forall item, text | item in m.items && text in item.requirements :: IsMet(text, m, s, evidence)
  {
    hide IsRequirement, RequirementOf, IsMet, RequirementMet;
    if forall i | 0 <= i < |m.items| :: ItemMet(m.items[i], m, s, evidence) {
      forall item, text | item in m.items && text in item.requirements ensures IsMet(text, m, s, evidence) {
        var i :| 0 <= i < |m.items| && m.items[i] == item;
        var j :| 0 <= j < |item.requirements| && item.requirements[j] == text;
        assert ItemMet(m.items[i], m, s, evidence);
      }
    }
    if forall item, text | item in m.items && text in item.requirements :: IsMet(text, m, s, evidence) {
      forall i, j | 0 <= i < |m.items| && 0 <= j < |m.items[i].requirements|
        ensures IsMet(m.items[i].requirements[j], m, s, evidence)
      {
        assert m.items[i] in m.items && m.items[i].requirements[j] in m.items[i].requirements;
      }
    }
  }
}

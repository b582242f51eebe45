/** Acceptance manifests of a Work Block, and the structured evidence a marker gives for them. */
module Manifest {
  import opened Wrappers
  import opened Sequences
  import opened GuardText

  /** A decoded JSON document. An object keeps its members in text order; the last of a name counts. */
  datatype Json =
    | Null | Boolean(flag: bool) | Number(value: int) | Text(text: string)
    | Array(elements: seq<Json>)
    | Object(members: seq<(string, Json)>)

  function Member(members: seq<(string, Json)>, name: string): Option<Json> {
    if members == [] then None
    else
      var last := members[|members| - 1];
      if last.0 == name then Some(last.1) else Member(members[..|members| - 1], name)
  }

  function Names(members: seq<(string, Json)>): set<string> {
    set i | 0 <= i < |members| :: members[i].0
  }

  /** The object says `value` under `name`: the last member of that name counts. */
  ghost predicate Says(members: seq<(string, Json)>, name: string, value: Json) {
    exists i :: 0 <= i < |members| && members[i] == (name, value) && forall j | i < j < |members| :: members[j].0 != name
  }

  lemma {:induction false} MemberSays(members: seq<(string, Json)>, name: string, value: Json)
    ensures Member(members, name) == Some(value) <==> Says(members, name, value)
  {
    if members != [] {
      var n := |members| - 1;
      if members[n].0 != name {
        MemberSays(members[..n], name, value);
        if Says(members, name, value) {
          var i :| 0 <= i < |members| && members[i] == (name, value) && forall j | i < j < |members| :: members[j].0 != name;
          assert members[..n][i] == (name, value);
        }
        if Says(members[..n], name, value) {
          var i :| 0 <= i < n && members[..n][i] == (name, value) && forall j | i < j < n :: members[..n][j].0 != name;
          assert members[i] == (name, value);
          assert forall j | i < j < n :: members[j] == members[..n][j];
        }
      } else {
        assert Says(members, name, members[n].1);
      }
    }
  }

  lemma {:induction false} NamedIsSaid(members: seq<(string, Json)>, name: string)
    ensures name in Names(members) <==> Member(members, name).Some?
  {
    if members != [] {
      NamedIsSaid(members[..|members| - 1], name);
    }
  }

  /** The members of an object that has exactly these names. */
  function Closed(json: Json, names: set<string>): Guarded<seq<(string, Json)>> {
    if json.Object? && Names(json.members) == names then Pass(json.members) else GuardFailure
  }

  function RequiredText(members: seq<(string, Json)>, name: string): Guarded<string> {
    var m := Member(members, name);
    if m.Some? && m.value.Text? && m.value.text != "" then Pass(m.value.text) else GuardFailure
  }

  function RequiredArray(members: seq<(string, Json)>, name: string): Guarded<seq<Json>> {
    var m := Member(members, name);
    if m.Some? && m.value.Array? then Pass(m.value.elements) else GuardFailure
  }

  // ----- Manifests -----

  datatype RouteEffect = NoEffect | Advances | Completes

  datatype ItemKind = Acceptance | Invariant | Negative

  datatype RequirementKind = ChangedPathKind | PresentPathKind | FocusedTest | Ci | SmokeKind | LiveProbe | RouteTransition

  datatype Requirement = Requirement(kind: RequirementKind, value: string)

  datatype Item = Item(id: string, kind: ItemKind, requirements: seq<string>)

  /** The canonical document; its digest is what markers and receipts name. */
  datatype AcceptanceManifest = AcceptanceManifest(routeEffect: RouteEffect, items: seq<Item>)

  const MANIFEST_SCHEMA := "workflow-acceptance-manifest-v1"

  function RouteNamed(name: string): Guarded<RouteEffect> {
    if name == "NONE" then Pass(NoEffect)
    else if name == "ADVANCES" then Pass(Advances)
    else if name == "COMPLETES" then Pass(Completes)
    else GuardFailure
  }

  function ItemKindNamed(name: string): Guarded<ItemKind> {
    if name == "acceptance" then Pass(Acceptance)
    else if name == "invariant" then Pass(Invariant)
    else if name == "negative" then Pass(Negative)
    else GuardFailure
  }

  function RequirementKindNamed(name: string): Guarded<RequirementKind> {
    if name == "changed_path" then Pass(ChangedPathKind)
    else if name == "present_path" then Pass(PresentPathKind)
    else if name == "focused_test" then Pass(FocusedTest)
    else if name == "ci" then Pass(Ci)
    else if name == "smoke" then Pass(SmokeKind)
    else if name == "live_probe" then Pass(LiveProbe)
    else if name == "route_transition" then Pass(RouteTransition)
    else GuardFailure
  }

  /** `kind:value`, cut at the first colon. */
  function RequirementOf(text: string): Guarded<Requirement> {
    var k := IndexOf(text, ':');
    var _ :- Need(k + 1 < |text|);
    var kind :- RequirementKindNamed(text[..k]);
    Pass(Requirement(kind, text[k + 1..]))
  }

  predicate IsItemId(id: string) {
    && |id| > 0 && 'A' <= id[0] <= 'Z'
    && forall i | 0 <= i < |id| :: 'A' <= id[i] <= 'Z' || '0' <= id[i] <= '9' || id[i] == '_' || id[i] == '-'
  }

  /** The requirement list a JSON array stands for: texts of known kinds, none twice. */
  ghost predicate DescribesRequirements(elements: seq<Json>, requirements: seq<string>) {
    && |elements| == |requirements| > 0
    && (forall i | 0 <= i < |elements| :: elements[i] == Text(requirements[i]) && RequirementOf(requirements[i]).Pass?)
    && Distinct(requirements)
  }

  ghost predicate DescribesItem(json: Json, item: Item) {
    && json.Object? && Names(json.members) == {"id", "kind", "requirements"}
    && Member(json.members, "id") == Some(Text(item.id)) && IsItemId(item.id)
    && RequiredText(json.members, "kind").Pass?
    && ItemKindNamed(RequiredText(json.members, "kind").value) == Pass(item.kind)
    && RequiredArray(json.members, "requirements").Pass?
    && DescribesRequirements(RequiredArray(json.members, "requirements").value, item.requirements)
  }

  ghost predicate DescribesManifest(json: Json, m: AcceptanceManifest) {
    && json.Object? && Names(json.members) == {"schema_version", "route_effect", "items"}
    && RequiredText(json.members, "route_effect").Pass?
    && RouteNamed(Upper(RequiredText(json.members, "route_effect").value)) == Pass(m.routeEffect)
    && RequiredArray(json.members, "items").Pass?
    && var elements := RequiredArray(json.members, "items").value;
       |elements| == |m.items| > 0
       && (forall i | 0 <= i < |elements| :: DescribesItem(elements[i], m.items[i]))
       && forall i, j | 0 <= i < j < |m.items| :: m.items[i].id != m.items[j].id
  }

  predicate IsManifestDocument(json: Json) {
    json.Object? && Member(json.members, "schema_version") == Some(Text(MANIFEST_SCHEMA))
  }

  /** `documents` are the decoded JSON blocks of the body; one that does not decode is a failure. */
  ghost predicate DeclaresManifest(documents: seq<Guarded<Json>>, m: AcceptanceManifest) {
    exists i: nat :: OnlyManifest(documents, i) && DescribesManifest(documents[i].value, m)
  }

  ghost predicate OnlyManifest(documents: seq<Guarded<Json>>, i: nat) {
    && (forall j | 0 <= j < |documents| :: documents[j].Pass? && documents[j].value.Object?)
    && i < |documents| && IsManifestDocument(documents[i].value)
    && forall j | 0 <= j < |documents| && j != i :: !IsManifestDocument(documents[j].value)
  }

  method ParseRequirements(elements: seq<Json>) returns (r: Guarded<seq<string>>)
    ensures r.Pass? ==> DescribesRequirements(elements, r.value)
    ensures r.GuardFailure? ==> forall requirements :: !DescribesRequirements(elements, requirements)
  {
    var requirements: seq<string> := [];
    for i := 0 to |elements|
      invariant |requirements| == i
      invariant forall k | 0 <= k < i ::
                  elements[k] == Text(requirements[k]) && RequirementOf(requirements[k]).Pass?
    {
      if !elements[i].Text? || RequirementOf(elements[i].text).GuardFailure? {
        return GuardFailure;
      }
      requirements := requirements + [elements[i].text];
    }
    if |requirements| == 0 || |Elements(requirements)| != |requirements| {
      DistinctExactly(requirements);
      forall other | |other| == |elements| && forall k | 0 <= k < |elements| :: elements[k] == Text(other[k])
        ensures other == requirements
      {
      }
      return GuardFailure;
    }
    DistinctExactly(requirements);
    r := Pass(requirements);
  }

  method ParseItem(json: Json) returns (r: Guarded<Item>)
    ensures r.Pass? ==> DescribesItem(json, r.value)
    ensures r.GuardFailure? ==> forall item :: !DescribesItem(json, item)
  {
    var members := Closed(json, {"id", "kind", "requirements"});
    if members.GuardFailure? {
      return GuardFailure;
    }
    var id := RequiredText(members.value, "id");
    var kind := RequiredText(members.value, "kind");
    var elements := RequiredArray(members.value, "requirements");
    if id.GuardFailure? || kind.GuardFailure? || !IsItemId(id.value) || ItemKindNamed(kind.value).GuardFailure?
       || elements.GuardFailure?
    {
      return GuardFailure;
    }
    var requirements := ParseRequirements(elements.value);
    if requirements.GuardFailure? {
      return GuardFailure;
    }
    r := Pass(Item(id.value, ItemKindNamed(kind.value).value, requirements.value));
  }

  lemma ItemIsUnique(json: Json, a: Item, b: Item)
    requires DescribesItem(json, a) && DescribesItem(json, b)
    ensures a == b
  {
  }

  method ParseItems(elements: seq<Json>) returns (r: Guarded<seq<Item>>)
    ensures r.Pass? ==> |r.value| == |elements|
    ensures r.Pass? ==> forall i | 0 <= i < |elements| :: DescribesItem(elements[i], r.value[i])
    ensures r.Pass? ==> forall i, j | 0 <= i < j < |elements| :: r.value[i].id != r.value[j].id
    ensures r.GuardFailure? ==>
              forall items: seq<Item> ::
                !(|items| == |elements|
                  && (forall i | 0 <= i < |elements| :: DescribesItem(elements[i], items[i]))
                  && forall i, j | 0 <= i < j < |items| :: items[i].id != items[j].id)
  {
    hide DescribesItem;
    var items: seq<Item> := [];
    var seen: set<string> := {};
    for i := 0 to |elements|
      invariant |items| == i
      invariant forall k | 0 <= k < i :: DescribesItem(elements[k], items[k])
      invariant seen == set k | 0 <= k < i :: items[k].id
      invariant forall k, l | 0 <= k < l < i :: items[k].id != items[l].id
    {
      var item := ParseItem(elements[i]);
      if item.GuardFailure? {
        return GuardFailure;
      }
      if item.value.id in seen {
        var k :| 0 <= k < i && items[k].id == item.value.id;
        forall others: seq<Item> | |others| == |elements| && forall l | 0 <= l < |elements| :: DescribesItem(elements[l], others[l])
          ensures others[k].id == others[i].id
        {
          ItemIsUnique(elements[k], others[k], items[k]);
          ItemIsUnique(elements[i], others[i], item.value);
        }
        return GuardFailure;
      }
      seen := seen + {item.value.id};
      items := items + [item.value];
    }
    r := Pass(items);
  }

  /** The only document of the manifest schema, provided every document is an object. */
  method FindManifest(documents: seq<Guarded<Json>>) returns (r: Guarded<nat>)
    ensures r.Pass? <==> exists i: nat :: OnlyManifest(documents, i)
    ensures r.Pass? ==> OnlyManifest(documents, r.value)
  {
    var candidates: seq<nat> := [];
    for i := 0 to |documents|
      invariant forall k | 0 <= k < i :: documents[k].Pass? && documents[k].value.Object?
      invariant forall c | c in candidates :: c < i
      invariant forall k | 0 <= k < i :: k in candidates <==> IsManifestDocument(documents[k].value)
      invariant Distinct(candidates)
    {
      if documents[i].GuardFailure? || !documents[i].value.Object? {
        return GuardFailure;
      }
      if IsManifestDocument(documents[i].value) {
        assert forall k | 0 <= k < |candidates| :: candidates[k] in candidates;
        candidates := candidates + [i];
      }
    }
    if |candidates| == 1 {
      assert candidates[0] in candidates;
      assert OnlyManifest(documents, candidates[0]);
      return Pass(candidates[0]);
    }
    if |candidates| > 1 {
      assert candidates[0] in candidates && candidates[1] in candidates && candidates[0] != candidates[1];
    }
    r := GuardFailure;
  }

  method ParseDocument(json: Json) returns (r: Guarded<AcceptanceManifest>)
    ensures r.Pass? ==> DescribesManifest(json, r.value)
    ensures r.GuardFailure? ==> forall m :: !DescribesManifest(json, m)
  {
    hide DescribesItem, Names, Member, RouteNamed, Upper;
    var members := Closed(json, {"schema_version", "route_effect", "items"});
    if members.GuardFailure? {
      return GuardFailure;
    }
    var route := RequiredText(members.value, "route_effect");
    var elements := RequiredArray(members.value, "items");
    if route.GuardFailure? || RouteNamed(Upper(route.value)).GuardFailure? || elements.GuardFailure? || |elements.value| == 0 {
      return GuardFailure;
    }
    var items := ParseItems(elements.value);
    if items.GuardFailure? {
      return GuardFailure;
    }
    r := Pass(AcceptanceManifest(RouteNamed(Upper(route.value)).value, items.value));
  }

  /** Passes exactly the manifest the documents declare, and fails when they declare none. */
  method ParseManifest(documents: seq<Guarded<Json>>) returns (r: Guarded<AcceptanceManifest>)
    ensures r.Pass? ==> DeclaresManifest(documents, r.value)
    ensures r.GuardFailure? ==> forall m :: !DeclaresManifest(documents, m)
  {
    hide DescribesManifest, IsManifestDocument;
    var chosen := FindManifest(documents);
    if chosen.GuardFailure? {
      return GuardFailure;
    }
    r := ParseDocument(documents[chosen.value].value);
  }

  /** At most one manifest is declared. */
  lemma ManifestIsUnique(documents: seq<Guarded<Json>>, a: AcceptanceManifest, b: AcceptanceManifest)
    requires DeclaresManifest(documents, a) && DeclaresManifest(documents, b)
    ensures a == b
  {
    var i: nat :| OnlyManifest(documents, i) && DescribesManifest(documents[i].value, a);
    var j: nat :| OnlyManifest(documents, j) && DescribesManifest(documents[j].value, b);
    assert i == j;
    DescribedOnce(documents[i].value, a, b);
  }

  lemma DescribedOnce(json: Json, a: AcceptanceManifest, b: AcceptanceManifest)
    requires DescribesManifest(json, a) && DescribesManifest(json, b)
    ensures a == b
  {
    forall i | 0 <= i < |a.items| ensures a.items[i] == b.items[i] {
      ItemIsUnique(RequiredArray(json.members, "items").value[i], a.items[i], b.items[i]);
    }
  }

  // ----- The canonical form -----

  ghost predicate DistinctNames(members: seq<(string, Json)>) {
    forall i, j | 0 <= i < j < |members| :: members[i].0 != members[j].0
  }

  /** The same members in another order. */
  ghost predicate Reordered(a: Json, b: Json) {
    && a.Object? && b.Object? && DistinctNames(a.members) && DistinctNames(b.members)
    && multiset(a.members) == multiset(b.members)
  }

  lemma {:induction false} MemberAt(members: seq<(string, Json)>, i: nat)
    requires DistinctNames(members) && i < |members|
    ensures Member(members, members[i].0) == Some(members[i].1)
  {
    var n := |members| - 1;
    if i < n {
      MemberAt(members[..n], i);
    }
  }

  lemma {:induction false} MemberAbsent(members: seq<(string, Json)>, name: string)
    ensures Member(members, name).None? <==> name !in Names(members)
  {
    if members != [] {
      var n := |members| - 1;
      MemberAbsent(members[..n], name);
      assert name in Names(members) <==> members[n].0 == name || name in Names(members[..n]) by {
        assert forall i | 0 <= i < n :: members[..n][i] == members[i];
      }
    }
  }

  lemma NameCarries(a: Json, b: Json, name: string)
    requires Reordered(a, b) && name in Names(a.members)
    ensures name in Names(b.members) && Member(a.members, name) == Member(b.members, name)
  {
    var i :| 0 <= i < |a.members| && a.members[i].0 == name;
    assert a.members[i] in multiset(b.members);
    var j :| 0 <= j < |b.members| && b.members[j] == a.members[i];
    MemberAt(a.members, i);
    MemberAt(b.members, j);
  }

  lemma ReorderedMember(a: Json, b: Json, name: string)
    requires Reordered(a, b)
    ensures Member(a.members, name) == Member(b.members, name)
    ensures name in Names(a.members) <==> name in Names(b.members)
  {
    MemberAbsent(a.members, name);
    MemberAbsent(b.members, name);
    if name in Names(a.members) {
      NameCarries(a, b, name);
    }
    if name in Names(b.members) {
      NameCarries(b, a, name);
    }
  }

  /** Two ways of writing one manifest: member order and the letter case of the route effect differ. */
  ghost predicate SameManifestText(a: Json, b: Json) {
    && a.Object? && b.Object? && Names(a.members) == Names(b.members)
    && RequiredText(a.members, "route_effect").Pass? && RequiredText(b.members, "route_effect").Pass?
    && Upper(RequiredText(a.members, "route_effect").value) == Upper(RequiredText(b.members, "route_effect").value)
    && RequiredArray(a.members, "items").Pass? && RequiredArray(b.members, "items").Pass?
    && var xs, ys := RequiredArray(a.members, "items").value, RequiredArray(b.members, "items").value;
       |xs| == |ys| && forall i | 0 <= i < |xs| :: Reordered(xs[i], ys[i])
  }

  lemma ReorderedItem(a: Json, b: Json, item: Item)
    requires Reordered(a, b) && DescribesItem(a, item)
    ensures DescribesItem(b, item)
  {
    assert b.Object?;
    hide Reordered;
    ReorderedMember(a, b, "id");
    ReorderedMember(a, b, "kind");
    ReorderedMember(a, b, "requirements");
    assert Names(a.members) == Names(b.members) by {
      forall name ensures name in Names(a.members) <==> name in Names(b.members) {
        ReorderedMember(a, b, name);
      }
    }
  }

  /** Neither member order nor the letter case of the route effect changes the manifest, hence its digest. */
  lemma FormIsCanonical(a: Json, b: Json, m: AcceptanceManifest)
    requires SameManifestText(a, b) && DescribesManifest(a, m)
    ensures DescribesManifest(b, m)
  {
    hide Reordered, DescribesItem;
    var xs, ys := RequiredArray(a.members, "items").value, RequiredArray(b.members, "items").value;
    forall i | 0 <= i < |ys| ensures DescribesItem(ys[i], m.items[i]) {
      ReorderedItem(xs[i], ys[i], m.items[i]);
    }
  }
}

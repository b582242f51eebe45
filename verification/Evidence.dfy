/** The evidence payload of a v2 marker, checked against the acceptance manifest. */
module Evidence {
  import opened Wrappers
  import opened Sequences
  import opened MarkerText
  import opened Manifest

  type References = map<string, string>

  /** One PASS entry of a payload: an item id and a reference for each requirement it names. */
  datatype Entry = Entry(id: string, references: References)

  ghost predicate DistinctItems(items: seq<Item>) {
    forall i, j | 0 <= i < j < |items| :: items[i].id != items[j].id
  }

  // ----- Pairing entries with items -----

  ghost predicate Matches(entry: Entry, item: Item) {
    entry.id == item.id && entry.references.Keys == Elements(item.requirements)
  }

  /** `f` pairs every item with an entry of its own, and no entry is left over. */
  ghost predicate Pairing(f: seq<nat>, entries: seq<Entry>, items: seq<Item>) {
    && |f| == |items| == |entries| && Distinct(f)
    && forall i | 0 <= i < |items| :: f[i] < |entries| && Matches(entries[f[i]], items[i])
  }

  ghost predicate OneToOne(entries: seq<Entry>, items: seq<Item>) {
    exists f :: Pairing(f, entries, items)
  }

  function ItemIds(items: seq<Item>): seq<string> {
    Map((item: Item) => item.id, items)
  }

  function EntryIds(entries: seq<Entry>): seq<string> {
    Map((entry: Entry) => entry.id, entries)
  }

  /** What the passes over the payload establish: no id twice, the ids of the items, their requirements. */
  ghost predicate Covers(entries: seq<Entry>, items: seq<Item>) {
    && Distinct(EntryIds(entries))
    && Elements(EntryIds(entries)) == Elements(ItemIds(items))
    && forall i, j | 0 <= i < |items| && 0 <= j < |entries| ::
         entries[j].id == items[i].id ==> entries[j].references.Keys == Elements(items[i].requirements)
  }

  lemma ItemHasEntry(entries: seq<Entry>, items: seq<Item>, i: nat) returns (j: nat)
    requires Elements(EntryIds(entries)) == Elements(ItemIds(items)) && i < |items|
    ensures j < |entries| && entries[j].id == items[i].id
  {
    assert ItemIds(items)[i] in Elements(ItemIds(items));
    assert items[i].id in EntryIds(entries);
    var k :| 0 <= k < |EntryIds(entries)| && EntryIds(entries)[k] == items[i].id;
    j := k;
  }

  lemma ChooseEntries(entries: seq<Entry>, items: seq<Item>) returns (f: seq<nat>)
    requires Covers(entries, items)
    ensures |f| == |items| && forall i | 0 <= i < |items| :: f[i] < |entries| && Matches(entries[f[i]], items[i])
  {
    f := [];
    var i := 0;
    while i < |items|
      invariant |f| == i <= |items|
      invariant forall k | 0 <= k < i :: f[k] < |entries| && Matches(entries[f[k]], items[k])
    {
      var j := ItemHasEntry(entries, items, i);
      f := f + [j];
      i := i + 1;
    }
  }

  lemma CoversHasPairing(entries: seq<Entry>, items: seq<Item>)
    requires DistinctItems(items) && Covers(entries, items)
    ensures OneToOne(entries, items)
  {
    var f := ChooseEntries(entries, items);
    DistinctExactly(ItemIds(items));
    DistinctExactly(EntryIds(entries));
    assert Distinct(ItemIds(items));
    assert Pairing(f, entries, items);
  }

  lemma PairedItem(f: seq<nat>, entries: seq<Entry>, items: seq<Item>, j: nat) returns (i: nat)
    requires Pairing(f, entries, items) && j < |entries|
    ensures i < |items| && f[i] == j && Matches(entries[j], items[i])
  {
    DistinctIsOnto(f, j);
    var k :| 0 <= k < |f| && f[k] == j;
    i := k;
  }

  lemma PairingCovers(f: seq<nat>, entries: seq<Entry>, items: seq<Item>)
    requires DistinctItems(items) && Pairing(f, entries, items)
    ensures Covers(entries, items)
  {
    var names, ids := EntryIds(entries), ItemIds(items);
    forall j, k | 0 <= j < k < |entries| ensures names[j] != names[k] {
      var a := PairedItem(f, entries, items, j);
      var b := PairedItem(f, entries, items, k);
    }
    forall i, j | 0 <= i < |items| && 0 <= j < |entries| && entries[j].id == items[i].id
      ensures entries[j].references.Keys == Elements(items[i].requirements)
    {
      var a := PairedItem(f, entries, items, j);
      assert a == i;
    }
    SameIds(f, entries, items);
  }

  lemma SameIds(f: seq<nat>, entries: seq<Entry>, items: seq<Item>)
    requires Pairing(f, entries, items)
    ensures Elements(EntryIds(entries)) == Elements(ItemIds(items))
  {
    var names, ids := EntryIds(entries), ItemIds(items);
    forall x | x in names ensures x in ids {
      var j :| 0 <= j < |names| && names[j] == x;
      var a := PairedItem(f, entries, items, j);
      assert ids[a] == x;
    }
    forall x | x in ids ensures x in names {
      var i :| 0 <= i < |ids| && ids[i] == x;
      assert names[f[i]] == x;
    }
  }

  /** Coverage, as the code checks it, is a bijection between entries and items. */
  lemma CoverageIsBijection(entries: seq<Entry>, items: seq<Item>)
    requires DistinctItems(items)
    ensures Covers(entries, items) <==> OneToOne(entries, items)
  {
    hide Covers, Pairing;
    if Covers(entries, items) {
      CoversHasPairing(entries, items);
    }
    if OneToOne(entries, items) {
      var f :| Pairing(f, entries, items);
      PairingCovers(f, entries, items);
    }
  }

  // ----- Reading a payload -----

  /** References by requirement: every member a text that is not empty. */
  predicate LegalReferences(members: seq<(string, Json)>) {
    forall name | name in Names(members) :: RequiredText(members, name).Pass?
  }

  function ReferencesOf(members: seq<(string, Json)>): References
    requires LegalReferences(members)
  {
    map name | name in Names(members) :: RequiredText(members, name).value
  }

  /** An entry with any other verdict than PASS is not an entry. */
  function EntryOf(json: Json): Guarded<Entry> {
    var members :- Closed(json, {"id", "verdict", "evidence"});
    var id :- RequiredText(members, "id");
    var verdict :- RequiredText(members, "verdict");
    var evidence := Member(members, "evidence");
    var _ :- Need(verdict == "PASS" && evidence.Some? && evidence.value.Object?);
    var _ :- Need(LegalReferences(evidence.value.members));
    Pass(Entry(id, ReferencesOf(evidence.value.members)))
  }

  lemma ReferencesAreNotEmpty(json: Json)
    requires EntryOf(json).Pass?
    ensures forall name | name in EntryOf(json).value.references :: EntryOf(json).value.references[name] != ""
  {
  }

  function EntriesOf(elements: seq<Json>): Guarded<seq<Entry>> {
    if elements == [] then Pass([])
    else
      var front :- EntriesOf(elements[..|elements| - 1]);
      var last :- EntryOf(elements[|elements| - 1]);
      Pass(front + [last])
  }

  lemma {:induction false} EntriesFail(elements: seq<Json>, n: nat)
    requires n <= |elements| && EntriesOf(elements[..n]).GuardFailure?
    ensures EntriesOf(elements).GuardFailure?
    decreases |elements| - n
  {
    if n == |elements| {
      assert elements[..n] == elements;
    } else {
      assert elements[..n + 1][..n] == elements[..n];
      EntriesFail(elements, n + 1);
    }
  }

  lemma {:induction false} EntriesPrefix(elements: seq<Json>, n: nat)
    requires n <= |elements| && EntriesOf(elements).Pass?
    ensures EntriesOf(elements[..n]).Pass? && |EntriesOf(elements).value| == |elements|
    ensures EntriesOf(elements[..n]).value == EntriesOf(elements).value[..n]
    decreases |elements|
  {
    if n < |elements| {
      var m := |elements| - 1;
      EntriesPrefix(elements[..m], n);
      assert elements[..m][..n] == elements[..n];
    } else {
      assert elements[..n] == elements;
      if elements != [] {
        EntriesPrefix(elements[..|elements| - 1], |elements| - 1);
      }
    }
  }

  function PayloadElements(payload: Guarded<Json>): Guarded<seq<Json>> {
    var json :- payload;
    var members :- Closed(json, {"items"});
    RequiredArray(members, "items")
  }

  function PayloadEntries(payload: Guarded<Json>): Guarded<seq<Entry>> {
    var elements :- PayloadElements(payload);
    EntriesOf(elements)
  }

  /** A v2 marker evidences a manifest: same digest, and a payload in one-to-one correspondence with it. */
  ghost predicate Evidences(marker: MarkerRecord, m: AcceptanceManifest, digest: string, payload: Guarded<Json>) {
    && (marker.kind.BuildV2? || marker.kind.AuditV2?)
    && Get(marker.fields, ManifestKey) == Some(digest)
    && PayloadEntries(payload).Pass? && OneToOne(PayloadEntries(payload).value, m.items)
  }

  // ----- The same on the document -----

  /** The element of one item: it names the item, says PASS, and refers to something for each requirement. */
  ghost predicate PassElement(json: Json, item: Item) {
    && json.Object? && Names(json.members) == {"id", "verdict", "evidence"}
    && Says(json.members, "id", Text(item.id)) && item.id != ""
    && Says(json.members, "verdict", Text("PASS"))
    && exists refs :: Says(json.members, "evidence", Object(refs)) && RefersTo(refs, item.requirements)
  }

  ghost predicate RefersTo(refs: seq<(string, Json)>, requirements: seq<string>) {
    && (forall name :: name in Names(refs) <==> name in requirements)
    && forall name, value | Says(refs, name, value) :: value.Text? && value.text != ""
  }

  /** The document holds, under `items` and nothing else, one such element for each item and no other. */
  ghost predicate EvidenceDocument(json: Json, items: seq<Item>) {
    && json.Object? && Names(json.members) == {"items"}
    && exists elements, f :: Says(json.members, "items", Array(elements)) && ElementPairing(f, elements, items)
  }

  ghost predicate ElementPairing(f: seq<nat>, elements: seq<Json>, items: seq<Item>) {
    && |f| == |items| == |elements| && Distinct(f)
    && forall i | 0 <= i < |items| :: f[i] < |elements| && PassElement(elements[f[i]], items[i])
  }

  lemma LegalIsRefers(refs: seq<(string, Json)>, requirements: seq<string>)
    ensures LegalReferences(refs) && ReferencesOf(refs).Keys == Elements(requirements) <==> RefersTo(refs, requirements)
  {
    hide Member, Names, Says;
    forall name, value ensures Member(refs, name) == Some(value) <==> Says(refs, name, value) {
      MemberSays(refs, name, value);
    }
    forall name ensures name in Names(refs) <==> Member(refs, name).Some? {
      NamedIsSaid(refs, name);
    }
    assert forall name :: name in Elements(requirements) <==> name in requirements;
  }

  lemma ElementMeans(json: Json, item: Item)
    ensures EntryOf(json).Pass? && Matches(EntryOf(json).value, item) <==> PassElement(json, item)
  {
    hide Member, Names, Says, LegalReferences, ReferencesOf, RefersTo, Elements;
    if json.Object? {
      forall name, value ensures Member(json.members, name) == Some(value) <==> Says(json.members, name, value) {
        MemberSays(json.members, name, value);
      }
      forall refs: seq<(string, Json)>
        ensures LegalReferences(refs) && ReferencesOf(refs).Keys == Elements(item.requirements)
           <==> RefersTo(refs, item.requirements)
      {
        LegalIsRefers(refs, item.requirements);
      }
    }
  }

  lemma {:induction false} EntriesAre(elements: seq<Json>)
    ensures EntriesOf(elements).Pass? <==> forall i | 0 <= i < |elements| :: EntryOf(elements[i]).Pass?
    ensures EntriesOf(elements).Pass? ==>
              && |EntriesOf(elements).value| == |elements|
              && forall i | 0 <= i < |elements| :: EntryOf(elements[i]) == Pass(EntriesOf(elements).value[i])
  {
    hide EntryOf;
    if elements != [] {
      var n := |elements| - 1;
      EntriesAre(elements[..n]);
      assert forall i | 0 <= i < n :: elements[..n][i] == elements[i];
    }
  }

  lemma PairingMeans(f: seq<nat>, elements: seq<Json>, items: seq<Item>)
    ensures ElementPairing(f, elements, items) <==>
              EntriesOf(elements).Pass? && Pairing(f, EntriesOf(elements).value, items)
  {
    hide EntryOf, Matches, PassElement, EntriesOf, Distinct;
    EntriesAre(elements);
    forall i, j | 0 <= i < |items| && 0 <= j < |elements|
      ensures EntryOf(elements[j]).Pass? && Matches(EntryOf(elements[j]).value, items[i]) <==> PassElement(elements[j], items[i])
    {
      ElementMeans(elements[j], items[i]);
    }
    if ElementPairing(f, elements, items) {
      forall j | 0 <= j < |elements| ensures EntryOf(elements[j]).Pass? {
        DistinctIsOnto(f, j);
        var i :| 0 <= i < |f| && f[i] == j;
        assert PassElement(elements[f[i]], items[i]);
      }
    }
  }

  /** What the reading of a payload accepts, on the JSON document itself: every element says PASS. */
  lemma EvidenceMeansJson(payload: Guarded<Json>, items: seq<Item>)
    ensures PayloadEntries(payload).Pass? && OneToOne(PayloadEntries(payload).value, items)
       <==> payload.Pass? && EvidenceDocument(payload.value, items)
  {
    hide Member, Names, Says, EntriesOf, ElementPairing, Pairing;
    if payload.Pass? && payload.value.Object? {
      var members := payload.value.members;
      forall value ensures Member(members, "items") == Some(value) <==> Says(members, "items", value) {
        MemberSays(members, "items", value);
      }
      forall f, elements ensures ElementPairing(f, elements, items) <==>
          EntriesOf(elements).Pass? && Pairing(f, EntriesOf(elements).value, items)
      {
        PairingMeans(f, elements, items);
      }
    }
  }

  ghost predicate Collected(evidence: map<string, References>, entries: seq<Entry>) {
    && evidence.Keys == Elements(EntryIds(entries))
    && forall j | 0 <= j < |entries| :: entries[j].id in evidence && evidence[entries[j].id] == entries[j].references
  }

  lemma CollectOne(evidence: map<string, References>, entries: seq<Entry>, entry: Entry)
    requires Collected(evidence, entries) && entry.id !in evidence && Distinct(EntryIds(entries))
    ensures Collected(evidence[entry.id := entry.references], entries + [entry])
    ensures Distinct(EntryIds(entries + [entry]))
  {
    var names := EntryIds(entries);
    assert EntryIds(entries + [entry]) == names + [entry.id];
    forall j | 0 <= j < |entries| ensures entries[j].id != entry.id {
      assert names[j] in Elements(names);
    }
  }

  /** First pass: the references of every legal entry, none twice, none foreign to the manifest. */
  method CollectEntries(elements: seq<Json>, ids: set<string>) returns (r: Guarded<map<string, References>>)
    ensures r.Pass? <==>
              && EntriesOf(elements).Pass? && Distinct(EntryIds(EntriesOf(elements).value))
              && Elements(EntryIds(EntriesOf(elements).value)) <= ids
    ensures r.Pass? ==> Collected(r.value, EntriesOf(elements).value)
  {
    hide EntryOf, Collected;
    var evidence: map<string, References> := map[];
    ghost var entries: seq<Entry> := [];
    assert Collected(evidence, entries) by {
      NothingCollected();
    }
    for i := 0 to |elements|
      invariant EntriesOf(elements[..i]) == Pass(entries)
      invariant Distinct(EntryIds(entries)) && Elements(EntryIds(entries)) <= ids
      invariant Collected(evidence, entries)
    {
      assert elements[..i + 1][..i] == elements[..i];
      var entry := EntryOf(elements[i]);
      if entry.GuardFailure? {
        EntriesFail(elements, i + 1);
        return GuardFailure;
      }
      assert EntriesOf(elements[..i + 1]) == Pass(entries + [entry.value]);
      if entry.value.id !in ids || entry.value.id in evidence {
        RejectedEntry(elements, i + 1, entries, entry.value, evidence, ids);
        return GuardFailure;
      }
      CollectOne(evidence, entries, entry.value);
      AddedId(entries, entry.value);
      evidence := evidence[entry.value.id := entry.value.references];
      entries := entries + [entry.value];
    }
    assert elements[..|elements|] == elements;
    r := Pass(evidence);
  }

  lemma NothingCollected()
    ensures Collected(map[], [])
  {
  }

  lemma AddedId(entries: seq<Entry>, entry: Entry)
    ensures Elements(EntryIds(entries + [entry])) == Elements(EntryIds(entries)) + {entry.id}
  {
    assert EntryIds(entries + [entry]) == EntryIds(entries) + [entry.id];
  }

  lemma RejectedEntry(
    elements: seq<Json>, n: nat, entries: seq<Entry>, entry: Entry, evidence: map<string, References>, ids: set<string>)
    requires n <= |elements| && EntriesOf(elements[..n]) == Pass(entries + [entry])
    requires Collected(evidence, entries) && (entry.id !in ids || entry.id in evidence)
    ensures EntriesOf(elements).Pass? ==>
              !Distinct(EntryIds(EntriesOf(elements).value)) || !(Elements(EntryIds(EntriesOf(elements).value)) <= ids)
  {
    if EntriesOf(elements).Pass? {
      EntriesPrefix(elements, n);
      var all := EntriesOf(elements).value;
      assert all[..n] == entries + [entry];
      assert |entries| + 1 == n by {
        EntriesPrefix(elements[..n], n);
      }
      var names := EntryIds(all);
      assert names[n - 1] == entry.id && names[n - 1] in Elements(names);
      if entry.id in evidence {
        assert entry.id in EntryIds(entries);
        var k :| 0 <= k < |entries| && EntryIds(entries)[k] == entry.id;
        assert all[k] == all[..n][k];
        assert names[k] == entry.id;
      }
    }
  }

  /** Accepts exactly the markers that evidence the manifest, and returns the references of every item. */
  method MarkerEvidence(marker: MarkerRecord, m: AcceptanceManifest, digest: string, payload: Guarded<Json>)
    returns (r: Guarded<map<string, References>>)
    requires DistinctItems(m.items)
    ensures r.Pass? <==> Evidences(marker, m, digest, payload)
    ensures r.Pass? <==>
              && (marker.kind.BuildV2? || marker.kind.AuditV2?) && Get(marker.fields, ManifestKey) == Some(digest)
              && payload.Pass? && EvidenceDocument(payload.value, m.items)
    ensures r.Pass? ==> Collected(r.value, PayloadEntries(payload).value)
    ensures r.Pass? ==> forall i | 0 <= i < |m.items| ::
              m.items[i].id in r.value && r.value[m.items[i].id].Keys == Elements(m.items[i].requirements)
  {
    hide EntriesOf, Closed, Collected, Elements, EntryIds, ItemIds, Distinct, OneToOne, Covers, DistinctItems,
         EvidenceDocument;
    EvidenceMeansJson(payload, m.items);
    var elements := PayloadElements(payload);
    if (!marker.kind.BuildV2? && !marker.kind.AuditV2?) || Get(marker.fields, ManifestKey) != Some(digest)
       || elements.GuardFailure?
    {
      return GuardFailure;
    }
    var ids := Elements(ItemIds(m.items));
    var evidence := CollectEntries(elements.value, ids);
    ghost var entries := EntriesOf(elements.value);
    if entries.Pass? {
      CoverageIsBijection(entries.value, m.items);
      CoverageParts(entries.value, m.items);
    }
    if evidence.GuardFailure? || evidence.value.Keys != ids {
      if evidence.Pass? {
        CollectedKeys(evidence.value, entries.value);
      }
      return GuardFailure;
    }
    CollectedKeys(evidence.value, entries.value);
    for i := 0 to |m.items|
      invariant forall k | 0 <= k < i ::
                  m.items[k].id in evidence.value && evidence.value[m.items[k].id].Keys == Elements(m.items[k].requirements)
    {
      ItemIsListed(m.items, i);
      var item := m.items[i];
      if evidence.value[item.id].Keys != Elements(item.requirements) {
        UncoveredItem(evidence.value, entries.value, m.items, i);
        return GuardFailure;
      }
    }
    AllCovered(evidence.value, entries.value, m.items);
    r := evidence;
  }

  lemma CollectedKeys(evidence: map<string, References>, entries: seq<Entry>)
    requires Collected(evidence, entries)
    ensures evidence.Keys == Elements(EntryIds(entries))
  {
  }

  lemma CoverageParts(entries: seq<Entry>, items: seq<Item>)
    ensures Covers(entries, items) ==>
              Distinct(EntryIds(entries)) && Elements(EntryIds(entries)) == Elements(ItemIds(items))
  {
  }

  lemma ItemIsListed(items: seq<Item>, i: nat)
    requires i < |items|
    ensures items[i].id in Elements(ItemIds(items))
  {
    assert ItemIds(items)[i] == items[i].id;
  }

  lemma UncoveredItem(evidence: map<string, References>, entries: seq<Entry>, items: seq<Item>, i: nat)
    requires Collected(evidence, entries) && i < |items| && items[i].id in evidence
    requires evidence[items[i].id].Keys != Elements(items[i].requirements)
    ensures !Covers(entries, items)
  {
    var k :| 0 <= k < |entries| && EntryIds(entries)[k] == items[i].id;
    assert entries[k].id == items[i].id && entries[k].references == evidence[items[i].id];
  }

  lemma AllCovered(evidence: map<string, References>, entries: seq<Entry>, items: seq<Item>)
    requires Collected(evidence, entries) && Distinct(EntryIds(entries))
    requires evidence.Keys == Elements(ItemIds(items))
    requires forall i | 0 <= i < |items| ::
               items[i].id in evidence && evidence[items[i].id].Keys == Elements(items[i].requirements)
    ensures Covers(entries, items)
  {
  }
}

/** What marker and receipt comments say, spelled out on their text by the names of their fields. */
module TextMeaning {
  import opened Wrappers
  import opened Sequences
  import opened GuardText
  import opened MarkerText

  type FieldTable = map<string, string>

  predicate IsName(text: string) {
    text != "" && forall c | c in text :: 'a' <= c <= 'z' || '0' <= c <= '9' || c == '_'
  }

  predicate IsHex(text: string, n: nat) {
    |text| == n && forall c | c in text :: '0' <= c <= '9' || 'a' <= c <= 'f'
  }

  /** One line `name=value` for every entry of the table, in any order, and no other line. */
  ghost predicate Tabulates(lines: seq<string>, table: FieldTable) {
    && |lines| > 0 && Distinct(lines)
    && (forall name | name in table :: IsName(name) && table[name] != "" && '\n' !in table[name])
    && (forall name | name in table :: name + "=" + table[name] in lines)
    && forall line | line in lines :: exists name :: name in table && line == name + "=" + table[name]
  }

  /** The whole text of a comment: the opening with the name of its kind, the field lines, the closing mark. */
  predicate IsText(body: string, name: string, lines: seq<string>, payload: string) {
    body == "<!-- development-workflow:" + name + "\n" + JoinOn(lines, '\n') + "\n-->" + payload
  }

  function EntryOf(table: FieldTable, name: string): Option<string> {
    if name in table then Some(table[name]) else None
  }

  predicate StatusSays(text: string, status: Status) {
    match status case Passed => text == "PASS" case Failed => text == "FAIL" case Pending => text == "PENDING"
  }

  // ----- Field lines and the typed table -----

  /** The typed table holds the same entries. */
  ghost predicate SameTable(fields: map<Key, string>, table: FieldTable) {
    && (forall name | name in table :: KeyNamed(name) in fields && fields[KeyNamed(name)] == table[name])
    && forall key | key in fields :: KeyText(key) in table && KeyNamed(KeyText(key)) == key
  }

  lemma NameRoundTrip(name: string)
    ensures KeyText(KeyNamed(name)) == name
  {
  }

  lemma EntryLine(name: string, value: string)
    requires IsName(name) && value != ""
    ensures var line := name + "=" + value;
            IsField(line) && FieldKey(line) == KeyNamed(name) && FieldValue(line) == value
  {
    hide KeyNamed;
    assert forall i | 0 <= i < |name| :: name[i] in name;
    LineParts(name, value);
  }

  lemma LineOfTable(lines: seq<string>, table: FieldTable, i: nat) returns (name: string)
    requires Tabulates(lines, table) && i < |lines|
    ensures name in table && lines[i] == name + "=" + table[name]
    ensures IsField(lines[i]) && FieldKey(lines[i]) == KeyNamed(name) && FieldValue(lines[i]) == table[name]
  {
    hide KeyNamed, IsField, FieldKey, FieldValue, IsName;
    assert lines[i] in lines;
    name :| name in table && lines[i] == name + "=" + table[name];
    EntryLine(name, table[name]);
  }

  lemma TableIsLegal(lines: seq<string>, table: FieldTable)
    requires Tabulates(lines, table)
    ensures LegalFields(lines)
  {
    hide KeyNamed, KeyText, IsField, FieldKey, FieldValue, Tabulates;
    forall i | 0 <= i < |lines| ensures IsField(lines[i]) {
      var name := LineOfTable(lines, table, i);
    }
    forall i, j | 0 <= i < j < |lines| ensures FieldKey(lines[i]) != FieldKey(lines[j]) {
      var a := LineOfTable(lines, table, i);
      var b := LineOfTable(lines, table, j);
      NameRoundTrip(a);
      NameRoundTrip(b);
      LinesDiffer(lines, table, i, j);
    }
  }

  lemma LinesDiffer(lines: seq<string>, table: FieldTable, i: nat, j: nat)
    requires Tabulates(lines, table) && i < j < |lines|
    ensures lines[i] != lines[j]
  {
  }

  lemma TableIsRead(lines: seq<string>, table: FieldTable)
    requires Tabulates(lines, table)
    ensures LegalFields(lines) && SameTable(FieldMap(lines), table)
  {
    hide KeyNamed, KeyText, IsField, FieldKey, FieldValue, LegalFields, FieldMap, Tabulates;
    TableIsLegal(lines, table);
    assert forall i | 0 <= i < |lines| :: IsField(lines[i]) by {
      LegalMeansFields(lines);
    }
    forall name | name in table ensures KeyNamed(name) in FieldMap(lines) && FieldMap(lines)[KeyNamed(name)] == table[name] {
      var i := LineNamed(lines, table, name);
      FieldMapAt(lines, i);
    }
    forall key | key in FieldMap(lines) ensures KeyText(key) in table && KeyNamed(KeyText(key)) == key {
      FieldMapKeys(lines, key);
      var i :| 0 <= i < |lines| && FieldKey(lines[i]) == key;
      var name := LineOfTable(lines, table, i);
      NameRoundTrip(name);
    }
  }

  lemma LegalMeansFields(lines: seq<string>)
    requires LegalFields(lines)
    ensures forall i | 0 <= i < |lines| :: IsField(lines[i])
  {
  }

  lemma LineNamed(lines: seq<string>, table: FieldTable, name: string) returns (i: nat)
    requires Tabulates(lines, table) && name in table
    ensures i < |lines| && IsField(lines[i]) && FieldKey(lines[i]) == KeyNamed(name) && FieldValue(lines[i]) == table[name]
  {
    hide KeyNamed, IsField, FieldKey, FieldValue;
    var line := name + "=" + table[name];
    assert line in lines;
    i :| 0 <= i < |lines| && lines[i] == line;
    EntryLine(name, table[name]);
  }

  function NameOf(line: string): string {
    line[..IndexOf(line, '=')]
  }

  lemma FieldParts(line: string)
    requires IsField(line) && '\n' !in line
    ensures IsName(NameOf(line)) && FieldValue(line) != "" && '\n' !in FieldValue(line)
    ensures FieldKey(line) == KeyNamed(NameOf(line))
    ensures line == NameOf(line) + "=" + FieldValue(line)
  {
    hide KeyNamed;
    LineAsParts(line);
  }

  lemma NamesDiffer(lines: seq<string>)
    requires LegalFields(lines)
    ensures forall i, j | 0 <= i < j < |lines| :: NameOf(lines[i]) != NameOf(lines[j])
  {
    hide KeyNamed, IsField;
    forall i, j | 0 <= i < j < |lines| ensures NameOf(lines[i]) != NameOf(lines[j]) {
      assert FieldKey(lines[i]) == KeyNamed(NameOf(lines[i])) && FieldKey(lines[j]) == KeyNamed(NameOf(lines[j]));
    }
  }

  /** Every legal list of field lines is that of some table. */
  lemma FieldsHaveTable(lines: seq<string>) returns (table: FieldTable)
    requires |lines| > 0 && LegalFields(lines)
    requires forall i | 0 <= i < |lines| :: '\n' !in lines[i]
    ensures Tabulates(lines, table)
  {
    hide KeyNamed, KeyText, FieldKey, FieldValue, IsName, NameOf, IsField;
    NamesDiffer(lines);
    table := map i | 0 <= i < |lines| :: NameOf(lines[i]) := FieldValue(lines[i]);
    forall i | 0 <= i < |lines|
      ensures NameOf(lines[i]) in table && table[NameOf(lines[i])] == FieldValue(lines[i])
      ensures IsName(NameOf(lines[i])) && FieldValue(lines[i]) != "" && '\n' !in FieldValue(lines[i])
      ensures lines[i] == NameOf(lines[i]) + "=" + FieldValue(lines[i])
    {
      FieldParts(lines[i]);
    }
    forall name | name in table
      ensures IsName(name) && table[name] != "" && '\n' !in table[name] && name + "=" + table[name] in lines
    {
      var i :| 0 <= i < |lines| && NameOf(lines[i]) == name;
      assert lines[i] in lines;
    }
  }

  lemma LiteralNames()
    ensures KeyText(BlockKey) == "block" && KeyNamed("block") == BlockKey
    ensures KeyText(ShaKey) == "sha" && KeyNamed("sha") == ShaKey
    ensures KeyText(StatusKey) == "status" && KeyNamed("status") == StatusKey
    ensures KeyText(ReviewerKey) == "reviewer" && KeyNamed("reviewer") == ReviewerKey
    ensures KeyText(ManifestKey) == "manifest_sha256" && KeyNamed("manifest_sha256") == ManifestKey
    ensures KeyText(RoleKey) == "role" && KeyNamed("role") == RoleKey
    ensures KeyText(CanonicalKey) == "canonical_comment_id" && KeyNamed("canonical_comment_id") == CanonicalKey
    ensures KeyText(ReasonKey) == "reason" && KeyNamed("reason") == ReasonKey
    ensures KeyText(SupersededByKey) == "superseded_by_sha" && KeyNamed("superseded_by_sha") == SupersededByKey
    ensures KeyText(DecisionKey) == "decision" && KeyNamed("decision") == DecisionKey
  {
  }

  /** The same entry by its name and by its key. */
  lemma SameEntry(fields: map<Key, string>, table: FieldTable, key: Key, name: string)
    requires SameTable(fields, table) && KeyText(key) == name && KeyNamed(name) == key
    ensures key in fields <==> name in table
    ensures key in fields ==> fields[key] == table[name]
  {
  }

  lemma SameKeys(fields: map<Key, string>, table: FieldTable, keys: set<Key>, names: set<string>)
    requires SameTable(fields, table)
    requires forall key | key in keys :: KeyText(key) in names && KeyNamed(KeyText(key)) == key
    requires forall name | name in names :: KeyNamed(name) in keys
    ensures fields.Keys == keys <==> table.Keys == names
  {
    hide KeyNamed, KeyText;
    if fields.Keys == keys {
      forall name ensures name in table <==> name in names {
        NameRoundTrip(name);
      }
    }
    if table.Keys == names {
      forall key ensures key in fields <==> key in keys {
        if key in keys {
          assert KeyNamed(KeyText(key)) in fields;
        }
        if key in fields {
          assert KeyNamed(KeyText(key)) in keys;
        }
      }
    }
  }

  lemma SameFields(a: map<Key, string>, b: map<Key, string>, table: FieldTable)
    requires SameTable(a, table) && SameTable(b, table)
    ensures a == b
  {
    hide KeyNamed, KeyText;
    forall key ensures key in a <==> key in b {
    }
    forall key | key in a ensures a[key] == b[key] {
      assert KeyNamed(KeyText(key)) == key;
    }
  }

  // ----- Receipts -----

  const RECEIPT_NAMES := {"block", "sha", "decision", "manifest_sha256"}

  /** The table of a receipt, and the receipt it stands for. */
  predicate ReceiptReads(table: FieldTable, id: int, r: HumanReceipt) {
    && table.Keys == RECEIPT_NAMES
    && IsHex(table["sha"], 40) && IsHex(table["manifest_sha256"], 64)
    && r.commentId == id && r.block == table["block"] && r.sha == table["sha"]
    && r.manifestDigest == table["manifest_sha256"]
    && match r.decision case Approve => table["decision"] == "APPROVE" case Reject => table["decision"] == "REJECT"
  }

  lemma HexTexts(text: string)
    ensures IsHex(text, 40) <==> IsFullSha(text)
    ensures IsHex(text, 64) <==> IsSha256(text)
  {
    if IsHex(text, 40) || IsHex(text, 64) {
      assert forall i | 0 <= i < |text| :: text[i] in text;
    }
  }

  lemma ReceiptByName(id: int, fields: map<Key, string>, table: FieldTable, payload: string, r: HumanReceipt)
    requires SameTable(fields, table)
    ensures ReceiptOf(id, fields, payload) == Pass(r) <==> AllSpace(payload) && ReceiptReads(table, id, r)
  {
    LiteralNames();
    hide KeyText, KeyNamed, IsFullSha, IsSha256, IsHex, AllSpace, SameTable;
    SameKeys(fields, table, {BlockKey, ShaKey, DecisionKey, ManifestKey}, RECEIPT_NAMES);
    SameEntry(fields, table, BlockKey, "block");
    SameEntry(fields, table, ShaKey, "sha");
    SameEntry(fields, table, DecisionKey, "decision");
    SameEntry(fields, table, ManifestKey, "manifest_sha256");
    if table.Keys == RECEIPT_NAMES {
      HexTexts(table["sha"]);
      HexTexts(table["manifest_sha256"]);
    }
  }

  /** The body is the text of a receipt. */
  ghost predicate ReceiptSays(
    body: string, id: int, r: HumanReceipt, lines: seq<string>, table: FieldTable, payload: string)
  {
    && IsText(body, "human-v1", lines, payload) && Tabulates(lines, table)
    && (forall c | c in payload :: IsSpace(c))
    && ReceiptReads(table, id, r)
  }

  lemma SpacesOnly(payload: string)
    ensures AllSpace(payload) <==> forall c | c in payload :: IsSpace(c)
  {
    hide IsSpace;
    if AllSpace(payload) {
      forall c | c in payload ensures IsSpace(c) {
        var i :| 0 <= i < |payload| && payload[i] == c;
      }
    } else {
      var i :| 0 <= i < |payload| && !IsSpace(payload[i]);
      assert payload[i] in payload;
    }
  }

  lemma RenderIsText(block: Block, name: string)
    requires name == KindName(block.kind)
    ensures IsText(Render(block), name, block.lines, block.payload)
  {
    hide JoinOn, KindName;
    var fields := JoinOn(block.lines, '\n');
    var head := "<!-- development-workflow:" + name;
    assert Header(block.kind) == head by {
      assert "<!-- " + ("development-workflow:" + name) == head;
    }
    assert head + "\n" + (fields + ("\n-->" + block.payload)) == head + "\n" + fields + "\n-->" + block.payload;
  }

  /** A text whose lines are legal fields is matched, and has only that reading. */
  lemma TextIsMatched(body: string, kind: MarkerKind, name: string, lines: seq<string>, table: FieldTable, payload: string)
    requires name == KindName(kind) && Tabulates(lines, table) && IsText(body, name, lines, payload)
    ensures MatchBlock(body) == Some(Block(kind, lines, payload))
    ensures LegalFields(lines) && SameTable(FieldMap(lines), table)
  {
    hide MatchBlock, Render, JoinOn, KindName, SameTable, FieldMap, IsField, LegalFields;
    RenderIsText(Block(kind, lines, payload), name);
    TableIsRead(lines, table);
    LegalMeansFields(lines);
    LinesStayLines(lines, table);
    MatchRender(Block(kind, lines, payload));
  }

  lemma LinesStayLines(lines: seq<string>, table: FieldTable)
    requires Tabulates(lines, table)
    ensures forall i | 0 <= i < |lines| :: '\n' !in lines[i]
  {
    forall i | 0 <= i < |lines| ensures '\n' !in lines[i] {
      assert lines[i] in lines;
      var name :| name in table && lines[i] == name + "=" + table[name];
      assert IsName(name);
    }
  }

  /** What the grammar matches, as a text with a table. */
  lemma MatchedIsText(body: string) returns (table: FieldTable)
    requires MatchBlock(body).Some? && LegalFields(MatchBlock(body).value.lines)
    ensures var block := MatchBlock(body).value;
            && IsText(body, KindName(block.kind), block.lines, block.payload)
            && Tabulates(block.lines, table) && SameTable(FieldMap(block.lines), table)
  {
    hide MatchBlock, Render, JoinOn, KindName, SameTable, FieldMap, IsField, LegalFields, IsText;
    var block := MatchBlock(body).value;
    MatchIsRender(body);
    RenderIsText(block, KindName(block.kind));
    table := FieldsHaveTable(block.lines);
    TableIsRead(block.lines, table);
  }

  lemma TextNamesItsKind(body: string, name: string, lines: seq<string>, payload: string)
    requires IsText(body, name, lines, payload)
    ensures Contains(body, "development-workflow:" + name)
  {
    hide JoinOn, Contains;
    var after := "\n" + JoinOn(lines, '\n') + "\n-->" + payload;
    assert body == "<!-- " + ("development-workflow:" + name) + after;
    ContainsMiddle("<!-- ", "development-workflow:" + name, after);
  }

  /**
   * A comment is a receipt if and only if its text is that of one: the four fields in any order, nothing
   * behind them, and APPROVE or REJECT as the decision, which is the decision that is read.
   */
  lemma ReceiptMeansText(c: Comment, r: HumanReceipt)
    ensures HumanReceiptOf(c) == Pass(Some(r))
       <==> exists lines, table, payload :: ReceiptSays(ToLf(c.body), c.id, r, lines, table, payload)
  {
    var body := ToLf(c.body);
    hide ToLf, MatchBlock, Contains, ReceiptOf, ReceiptReads, IsText, Tabulates, SameTable, FieldMap, LegalFields, IsSpace,
         AllSpace;
    assert Token(HumanV1) == "development-workflow:human-v1" && KindName(HumanV1) == "human-v1";
    if HumanReceiptOf(c) == Pass(Some(r)) {
      var block := MatchBlock(body).value;
      var table := MatchedIsText(body);
      LegalMeansFields(block.lines);
      ReceiptByName(c.id, FieldMap(block.lines), table, block.payload, r);
      SpacesOnly(block.payload);
      assert ReceiptSays(body, c.id, r, block.lines, table, block.payload);
    }
    if exists lines, table, payload :: ReceiptSays(body, c.id, r, lines, table, payload) {
      var lines, table, payload :| ReceiptSays(body, c.id, r, lines, table, payload);
      TextIsReceipt(c, r, lines, table, payload);
    }
  }

  lemma TextIsReceipt(c: Comment, r: HumanReceipt, lines: seq<string>, table: FieldTable, payload: string)
    requires ReceiptSays(ToLf(c.body), c.id, r, lines, table, payload)
    ensures HumanReceiptOf(c) == Pass(Some(r))
  {
    var body := ToLf(c.body);
    hide ToLf, MatchBlock, Contains, ReceiptOf, ReceiptReads, IsText, Tabulates, SameTable, FieldMap, LegalFields, IsSpace,
         AllSpace;
    assert Token(HumanV1) == "development-workflow:human-v1" && KindName(HumanV1) == "human-v1";
    hide Token, KindName;
    TextIsMatched(body, HumanV1, "human-v1", lines, table, payload);
    TextNamesItsKind(body, "human-v1", lines, payload);
    LegalMeansFields(lines);
    ReceiptByName(c.id, FieldMap(lines), table, payload, r);
    SpacesOnly(payload);
    assert MatchBlock(body).value.lines == lines;
  }

  /** A comment counts as no receipt if and only if the name of the receipt does not occur in it. */
  lemma NoReceiptMeansText(c: Comment)
    ensures HumanReceiptOf(c) == Pass(None) <==> !Contains(ToLf(c.body), "development-workflow:human-v1")
  {
    hide ToLf, MatchBlock, Contains, ReceiptOf, FieldMap, LegalFields;
    assert Token(HumanV1) == "development-workflow:human-v1";
  }

  function ReceiptTable(block: string, sha: string, decision: string, digest: string): FieldTable {
    map["block" := block, "sha" := sha, "decision" := decision, "manifest_sha256" := digest]
  }

  /** How a receipt printed with these four values is read: by its decision, and any other decision fails. */
  lemma PrintedReceipt(c: Comment, lines: seq<string>, block: string, sha: string, decision: string, digest: string)
    requires Tabulates(lines, ReceiptTable(block, sha, decision, digest)) && IsText(ToLf(c.body), "human-v1", lines, "")
    requires IsHex(sha, 40) && IsHex(digest, 64)
    ensures decision == "APPROVE" ==> HumanReceiptOf(c) == Pass(Some(HumanReceipt(c.id, block, sha, Approve, digest)))
    ensures decision == "REJECT" ==> HumanReceiptOf(c) == Pass(Some(HumanReceipt(c.id, block, sha, Reject, digest)))
    ensures decision != "APPROVE" && decision != "REJECT" ==> HumanReceiptOf(c).GuardFailure?
  {
    hide HumanReceiptOf, Tabulates, IsText, IsHex;
    var table := ReceiptTable(block, sha, decision, digest);
    var approved := HumanReceipt(c.id, block, sha, Approve, digest);
    var rejected := HumanReceipt(c.id, block, sha, Reject, digest);
    assert table["decision"] == decision && table["block"] == block && table["sha"] == sha;
    assert table.Keys == RECEIPT_NAMES;
    ReceiptMeansText(c, approved);
    ReceiptMeansText(c, rejected);
    assert decision == "APPROVE" ==> ReceiptSays(ToLf(c.body), c.id, approved, lines, table, "");
    assert decision == "REJECT" ==> ReceiptSays(ToLf(c.body), c.id, rejected, lines, table, "");
    if decision != "APPROVE" && decision != "REJECT" {
      OtherDecisionFails(c, lines, table);
    }
  }

  lemma OtherDecisionFails(c: Comment, lines: seq<string>, table: FieldTable)
    requires Tabulates(lines, table) && IsText(ToLf(c.body), "human-v1", lines, "")
    requires EntryOf(table, "decision") !in {Some("APPROVE"), Some("REJECT")}
    ensures HumanReceiptOf(c).GuardFailure?
  {
    hide ToLf, MatchBlock, Contains, Tabulates, IsText, SameTable, FieldMap, LegalFields, KeyText, KeyNamed;
    var body := ToLf(c.body);
    TextNamesItsKind(body, "human-v1", lines, "");
    NoReceiptMeansText(c);
    TextIsMatched(body, HumanV1, "human-v1", lines, table, "");
    if HumanReceiptOf(c).Pass? {
      var r := HumanReceiptOf(c).value.value;
      LegalMeansFields(lines);
      ReceiptByName(c.id, FieldMap(lines), table, "", r);
    }
  }

  // ----- Markers -----

  /** What is common to every kind. */
  predicate CommonReads(table: FieldTable, payload: string, id: int, m: MarkerRecord) {
    && m.commentId == id && m.payload == payload
    && EntryOf(table, "block") == Some(m.block)
    && EntryOf(table, "sha") == Some(m.sha) && IsHex(m.sha, 40)
    && EntryOf(table, "status").Some? && StatusSays(table["status"], m.status)
    && m.reviewer == EntryOf(table, "reviewer")
  }

  /** The table and the payload of a marker of each kind, and the record they stand for. */
  predicate MarkerReads(name: string, table: FieldTable, payload: string, id: int, m: MarkerRecord) {
    && CommonReads(table, payload, id, m)
    && match m.kind
       case BuildV1 =>
         name == "build-v1" && table.Keys == {"block", "sha", "status"} && Speaks(m, BuildRole)
       case AuditV1 =>
         name == "audit-v1" && table.Keys == {"block", "sha", "status", "reviewer"} && Speaks(m, AuditRole)
       case BuildV2 =>
         name == "build-v2" && table.Keys == {"block", "sha", "status", "manifest_sha256"} && Speaks(m, BuildRole)
         && IsHex(table["manifest_sha256"], 64)
       case AuditV2 =>
         name == "audit-v2" && table.Keys == {"block", "sha", "status", "reviewer", "manifest_sha256"}
         && Speaks(m, AuditRole) && IsHex(table["manifest_sha256"], 64)
       case SupersededV1 => name == "superseded-v1" && m.role.None? && SupersededReads(table, m)
       case HumanV1 => false
  }

  /** Only a build marker may be PENDING. */
  predicate Speaks(m: MarkerRecord, role: Role) {
    m.role == Some(role) && m.archivedRole.None? && (role.AuditRole? ==> !m.status.Pending?)
  }

  predicate SupersededReads(table: FieldTable, m: MarkerRecord) {
    if EntryOf(table, "reason") == Some("equivalent-duplicate") then
      && EntryOf(table, "canonical_comment_id").Some? && IsDigits(table["canonical_comment_id"])
      && if EntryOf(table, "role") == Some("build") then
           table.Keys == {"block", "sha", "status", "role", "canonical_comment_id", "reason"}
           && m.archivedRole == Some(BuildRole)
         else
           EntryOf(table, "role") == Some("audit")
           && table.Keys == {"block", "sha", "status", "role", "canonical_comment_id", "reason", "reviewer"}
           && m.archivedRole == Some(AuditRole) && !m.status.Pending?
    else
      && EntryOf(table, "reason") == Some("head-advanced") && EntryOf(table, "role") == Some("audit")
      && table.Keys == {"block", "sha", "status", "role", "reviewer", "reason", "superseded_by_sha"}
      && m.archivedRole == Some(AuditRole) && !m.status.Pending?
      && IsHex(table["superseded_by_sha"], 40) && table["superseded_by_sha"] != m.sha
  }

  lemma EntriesByName(fields: map<Key, string>, table: FieldTable)
    requires SameTable(fields, table)
    ensures Get(fields, BlockKey) == EntryOf(table, "block") && Get(fields, ShaKey) == EntryOf(table, "sha")
    ensures Get(fields, StatusKey) == EntryOf(table, "status") && Get(fields, ReviewerKey) == EntryOf(table, "reviewer")
    ensures Get(fields, ManifestKey) == EntryOf(table, "manifest_sha256") && Get(fields, RoleKey) == EntryOf(table, "role")
    ensures Get(fields, CanonicalKey) == EntryOf(table, "canonical_comment_id")
    ensures Get(fields, ReasonKey) == EntryOf(table, "reason")
    ensures Get(fields, SupersededByKey) == EntryOf(table, "superseded_by_sha")
  {
    LiteralNames();
    hide KeyText, KeyNamed, SameTable;
    SameEntry(fields, table, BlockKey, "block");
    SameEntry(fields, table, ShaKey, "sha");
    SameEntry(fields, table, StatusKey, "status");
    SameEntry(fields, table, ReviewerKey, "reviewer");
    SameEntry(fields, table, ManifestKey, "manifest_sha256");
    SameEntry(fields, table, RoleKey, "role");
    SameEntry(fields, table, CanonicalKey, "canonical_comment_id");
    SameEntry(fields, table, ReasonKey, "reason");
    SameEntry(fields, table, SupersededByKey, "superseded_by_sha");
  }

  ghost predicate NoneEmpty(table: FieldTable) {
    forall name | name in table :: table[name] != ""
  }

  /** A record of an active kind, field by field. */
  lemma PlainRecord(
    id: int, kind: MarkerKind, role: Role, keys: set<Key>, fields: map<Key, string>, payload: string, m: MarkerRecord)
    requires kind != HumanV1 && kind != SupersededV1 && SchemaOf(kind, fields) == Pass(Schema(role, keys))
    requires {BlockKey, ShaKey, StatusKey} <= keys && SupersededByKey !in keys
    requires role.AuditRole? ==> ReviewerKey in keys
    requires kind.BuildV2? || kind.AuditV2? ==> ManifestKey in keys
    requires forall key | key in fields :: fields[key] != ""
    ensures RecordOf(id, kind, fields, payload) == Pass(m) <==>
              && fields.Keys == keys
              && m.commentId == id && m.payload == payload && m.kind == kind && m.fields == fields
              && m.role == Some(role) && m.archivedRole.None?
              && m.block == fields[BlockKey] && m.sha == fields[ShaKey] && IsFullSha(m.sha)
              && StatusNamed(role, fields[StatusKey]) == Pass(m.status)
              && m.reviewer == Get(fields, ReviewerKey)
              && (kind.BuildV2? || kind.AuditV2? ==> IsSha256(fields[ManifestKey]))
  {
    hide IsFullSha, IsSha256, SchemaOf, StatusNamed;
  }

  lemma StatusByName(role: Role, text: string, status: Status)
    ensures StatusNamed(role, text) == Pass(status) <==>
              StatusSays(text, status) && (role.AuditRole? ==> !status.Pending?)
  {
  }

  lemma PlainByName(
    id: int, kind: MarkerKind, role: Role, keys: set<Key>, names: set<string>,
    fields: map<Key, string>, table: FieldTable, payload: string, m: MarkerRecord)
    requires SameTable(fields, table) && NoneEmpty(table)
    requires kind != HumanV1 && kind != SupersededV1 && SchemaOf(kind, fields) == Pass(Schema(role, keys))
    requires {BlockKey, ShaKey, StatusKey} <= keys && SupersededByKey !in keys
    requires role.AuditRole? ==> ReviewerKey in keys
    requires kind.BuildV2? || kind.AuditV2? ==> ManifestKey in keys
    requires forall key | key in keys :: KeyText(key) in names && KeyNamed(KeyText(key)) == key
    requires forall name | name in names :: KeyNamed(name) in keys
    ensures RecordOf(id, kind, fields, payload) == Pass(m) <==>
              && m.kind == kind && m.fields == fields && CommonReads(table, payload, id, m)
              && table.Keys == names && Speaks(m, role)
              && (kind.BuildV2? || kind.AuditV2? ==>
                    EntryOf(table, "manifest_sha256").Some? && IsHex(table["manifest_sha256"], 64))
  {
    EntriesByName(fields, table);
    SameKeys(fields, table, keys, names);
    NoFieldEmpty(fields, table);
    hide KeyText, KeyNamed, SameTable, IsHex, IsFullSha, IsSha256, SchemaOf, RecordOf, StatusNamed, StatusSays;
    PlainRecord(id, kind, role, keys, fields, payload, m);
    HexTexts(m.sha);
    HexTexts(EntryOf(table, "manifest_sha256").GetOr(""));
    StatusByName(role, EntryOf(table, "status").GetOr(""), m.status);
    if fields.Keys == keys {
      assert fields[BlockKey] == table["block"] && fields[StatusKey] == table["status"] && fields[ShaKey] == table["sha"];
      assert ManifestKey in keys ==> fields[ManifestKey] == table["manifest_sha256"];
    }
  }

  lemma NoFieldEmpty(fields: map<Key, string>, table: FieldTable)
    requires SameTable(fields, table) && NoneEmpty(table)
    ensures forall key | key in fields :: fields[key] != ""
  {
    hide KeyText, KeyNamed;
    forall key | key in fields ensures fields[key] != "" {
      assert fields[KeyNamed(KeyText(key))] == table[KeyText(key)];
    }
  }

  lemma MarkerByName(
    id: int, kind: MarkerKind, fields: map<Key, string>, table: FieldTable, payload: string, m: MarkerRecord)
    requires SameTable(fields, table) && NoneEmpty(table) && kind != HumanV1 && kind != SupersededV1
    ensures RecordOf(id, kind, fields, payload) == Pass(m) <==>
              m.kind == kind && m.fields == fields && MarkerReads(KindName(kind), table, payload, id, m)
  {
    LiteralNames();
    hide SameTable, RecordOf, IsHex, CommonReads, StatusSays, KeyText, KeyNamed, Speaks;
    match kind {
      case BuildV1 =>
        PlainByName(id, kind, BuildRole, {BlockKey, ShaKey, StatusKey}, {"block", "sha", "status"},
                    fields, table, payload, m);
      case AuditV1 =>
        PlainByName(id, kind, AuditRole, {BlockKey, ShaKey, StatusKey, ReviewerKey},
                    {"block", "sha", "status", "reviewer"}, fields, table, payload, m);
      case BuildV2 =>
        PlainByName(id, kind, BuildRole, {BlockKey, ShaKey, StatusKey, ManifestKey},
                    {"block", "sha", "status", "manifest_sha256"}, fields, table, payload, m);
      case AuditV2 =>
        PlainByName(id, kind, AuditRole, {BlockKey, ShaKey, StatusKey, ReviewerKey, ManifestKey},
                    {"block", "sha", "status", "reviewer", "manifest_sha256"}, fields, table, payload, m);
    }
  }

  ghost predicate Corresponds(keys: set<Key>, names: set<string>) {
    && (forall key | key in keys :: KeyText(key) in names && KeyNamed(KeyText(key)) == key)
    && forall name | name in names :: KeyNamed(name) in keys
  }

  predicate HasBasics(role: Role, keys: set<Key>) {
    BlockKey in keys && ShaKey in keys && StatusKey in keys && (role.AuditRole? ==> ReviewerKey in keys)
  }

  /** A superseded record, field by field. */
  lemma ArchivedRecord(id: int, role: Role, keys: set<Key>, fields: map<Key, string>, payload: string, m: MarkerRecord)
    requires SchemaOf(SupersededV1, fields) == Pass(Schema(role, keys))
    requires HasBasics(role, keys)
    requires forall key | key in fields :: fields[key] != ""
    ensures RecordOf(id, SupersededV1, fields, payload) == Pass(m) <==>
              && fields.Keys == keys
              && m.commentId == id && m.payload == payload && m.kind == SupersededV1 && m.fields == fields
              && m.role.None? && m.archivedRole == Some(role)
              && m.block == fields[BlockKey] && m.sha == fields[ShaKey] && IsFullSha(m.sha)
              && StatusNamed(role, fields[StatusKey]) == Pass(m.status)
              && m.reviewer == Get(fields, ReviewerKey)
              && (SupersededByKey in fields ==>
                    IsFullSha(fields[SupersededByKey]) && fields[SupersededByKey] != m.sha)
  {
    hide IsFullSha, IsSha256, SchemaOf, StatusNamed;
  }

  lemma ArchivedByName(
    id: int, role: Role, keys: set<Key>, names: set<string>,
    fields: map<Key, string>, table: FieldTable, payload: string, m: MarkerRecord)
    requires SameTable(fields, table) && NoneEmpty(table)
    requires SchemaOf(SupersededV1, fields) == Pass(Schema(role, keys))
    requires HasBasics(role, keys) && Corresponds(keys, names)
    ensures RecordOf(id, SupersededV1, fields, payload) == Pass(m) <==>
              && m.kind == SupersededV1 && m.fields == fields && CommonReads(table, payload, id, m)
              && table.Keys == names && m.role.None? && m.archivedRole == Some(role)
              && (role.AuditRole? ==> !m.status.Pending?)
              && (EntryOf(table, "superseded_by_sha").Some? ==>
                    IsHex(table["superseded_by_sha"], 40) && table["superseded_by_sha"] != m.sha)
  {
    EntriesByName(fields, table);
    SameKeys(fields, table, keys, names);
    NoFieldEmpty(fields, table);
    hide KeyText, KeyNamed, SameTable, IsHex, IsFullSha, IsSha256, SchemaOf, RecordOf, StatusNamed, StatusSays;
    ArchivedRecord(id, role, keys, fields, payload, m);
    HexTexts(m.sha);
    HexTexts(EntryOf(table, "superseded_by_sha").GetOr(""));
    StatusByName(role, EntryOf(table, "status").GetOr(""), m.status);
    if fields.Keys == keys {
      assert fields[BlockKey] == table["block"] && fields[StatusKey] == table["status"] && fields[ShaKey] == table["sha"];
      assert SupersededByKey in keys ==> fields[SupersededByKey] == table["superseded_by_sha"];
    }
  }

  const BUILD_DUPLICATE := {"block", "sha", "status", "role", "canonical_comment_id", "reason"}
  const AUDIT_DUPLICATE := {"block", "sha", "status", "role", "canonical_comment_id", "reason", "reviewer"}
  const HEAD_ADVANCE := {"block", "sha", "status", "role", "reviewer", "reason", "superseded_by_sha"}

  lemma SchemaByName(fields: map<Key, string>, table: FieldTable)
    requires SameTable(fields, table)
    ensures var reason, role := EntryOf(table, "reason"), EntryOf(table, "role");
            var digits := EntryOf(table, "canonical_comment_id").Some? && IsDigits(table["canonical_comment_id"]);
            SchemaOf(SupersededV1, fields) ==
              if reason == Some("equivalent-duplicate") && digits && role == Some("build") then
                Pass(Schema(BuildRole, {BlockKey, ShaKey, StatusKey, RoleKey, CanonicalKey, ReasonKey}))
              else if reason == Some("equivalent-duplicate") && digits && role == Some("audit") then
                Pass(Schema(AuditRole, {BlockKey, ShaKey, StatusKey, RoleKey, CanonicalKey, ReasonKey, ReviewerKey}))
              else if reason == Some("head-advanced") && role == Some("audit") then
                Pass(Schema(AuditRole, {BlockKey, ShaKey, StatusKey, RoleKey, ReviewerKey, ReasonKey, SupersededByKey}))
              else GuardFailure
  {
    EntriesByName(fields, table);
    hide KeyText, KeyNamed, SameTable;
    assert DuplicateKeys(AuditRole) == {BlockKey, ShaKey, StatusKey, RoleKey, CanonicalKey, ReasonKey, ReviewerKey};
    assert DuplicateKeys(BuildRole) == {BlockKey, ShaKey, StatusKey, RoleKey, CanonicalKey, ReasonKey};
  }

  /** The form of a superseded record its table asks for, or none. */
  lemma SupersededForms(table: FieldTable, m: MarkerRecord)
    ensures var reason, role := EntryOf(table, "reason"), EntryOf(table, "role");
            var digits := EntryOf(table, "canonical_comment_id").Some? && IsDigits(table["canonical_comment_id"]);
            SupersededReads(table, m) <==>
              if reason == Some("equivalent-duplicate") && digits && role == Some("build") then
                table.Keys == BUILD_DUPLICATE && m.archivedRole == Some(BuildRole)
              else if reason == Some("equivalent-duplicate") && digits && role == Some("audit") then
                table.Keys == AUDIT_DUPLICATE && m.archivedRole == Some(AuditRole) && !m.status.Pending?
              else if reason == Some("head-advanced") && role == Some("audit") then
                table.Keys == HEAD_ADVANCE && m.archivedRole == Some(AuditRole) && !m.status.Pending?
                && IsHex(table["superseded_by_sha"], 40) && table["superseded_by_sha"] != m.sha
              else false
  {
    hide IsHex, IsDigits;
  }

  lemma SupersededByName(id: int, fields: map<Key, string>, table: FieldTable, payload: string, m: MarkerRecord)
    requires SameTable(fields, table) && NoneEmpty(table)
    ensures RecordOf(id, SupersededV1, fields, payload) == Pass(m) <==>
              m.kind == SupersededV1 && m.fields == fields && MarkerReads("superseded-v1", table, payload, id, m)
  {
    hide SameTable, RecordOf, SupersededReads, CommonReads, SchemaOf;
    SupersededRecord(id, fields, table, payload, m);
  }

  lemma NamesTell(table: FieldTable)
    ensures table.Keys == HEAD_ADVANCE ==> EntryOf(table, "superseded_by_sha").Some?
    ensures table.Keys == BUILD_DUPLICATE || table.Keys == AUDIT_DUPLICATE ==> EntryOf(table, "superseded_by_sha").None?
  {
  }

  predicate IsDuplicate(table: FieldTable) {
    && EntryOf(table, "reason") == Some("equivalent-duplicate")
    && EntryOf(table, "canonical_comment_id").Some? && IsDigits(table["canonical_comment_id"])
  }

  const BUILD_DUPLICATE_KEYS := {BlockKey, ShaKey, StatusKey, RoleKey, CanonicalKey, ReasonKey}
  const AUDIT_DUPLICATE_KEYS := {BlockKey, ShaKey, StatusKey, RoleKey, CanonicalKey, ReasonKey, ReviewerKey}
  const HEAD_ADVANCE_KEYS := {BlockKey, ShaKey, StatusKey, RoleKey, ReviewerKey, ReasonKey, SupersededByKey}

  lemma SupersededKeys()
    ensures Corresponds(BUILD_DUPLICATE_KEYS, BUILD_DUPLICATE) && HasBasics(BuildRole, BUILD_DUPLICATE_KEYS)
    ensures Corresponds(AUDIT_DUPLICATE_KEYS, AUDIT_DUPLICATE) && HasBasics(AuditRole, AUDIT_DUPLICATE_KEYS)
    ensures Corresponds(HEAD_ADVANCE_KEYS, HEAD_ADVANCE) && HasBasics(AuditRole, HEAD_ADVANCE_KEYS)
  {
    LiteralNames();
    hide KeyText, KeyNamed;
  }

  /** A record whose table asks for this form. */
  lemma FormedRecord(
    id: int, role: Role, keys: set<Key>, names: set<string>,
    fields: map<Key, string>, table: FieldTable, payload: string, m: MarkerRecord)
    requires SameTable(fields, table) && NoneEmpty(table)
    requires SchemaOf(SupersededV1, fields) == Pass(Schema(role, keys))
    requires HasBasics(role, keys) && Corresponds(keys, names)
    requires SupersededReads(table, m) <==>
               && table.Keys == names && m.archivedRole == Some(role) && (role.AuditRole? ==> !m.status.Pending?)
               && (EntryOf(table, "superseded_by_sha").Some? ==>
                     IsHex(table["superseded_by_sha"], 40) && table["superseded_by_sha"] != m.sha)
    ensures RecordOf(id, SupersededV1, fields, payload) == Pass(m) <==>
              && m.kind == SupersededV1 && m.fields == fields && CommonReads(table, payload, id, m)
              && m.role.None? && SupersededReads(table, m)
  {
    hide SameTable, RecordOf, IsHex, CommonReads, Corresponds, HasBasics, SchemaOf, SupersededReads, EntryOf, NoneEmpty;
    ArchivedByName(id, role, keys, names, fields, table, payload, m);
  }

  lemma BuildDuplicate(id: int, fields: map<Key, string>, table: FieldTable, payload: string, m: MarkerRecord)
    requires SameTable(fields, table) && NoneEmpty(table) && IsDuplicate(table) && EntryOf(table, "role") == Some("build")
    ensures RecordOf(id, SupersededV1, fields, payload) == Pass(m) <==>
              && m.kind == SupersededV1 && m.fields == fields && CommonReads(table, payload, id, m)
              && m.role.None? && SupersededReads(table, m)
  {
    SchemaByName(fields, table);
    SupersededForms(table, m);
    hide SameTable, RecordOf, IsHex, IsDigits, CommonReads, Corresponds, HasBasics, SchemaOf, SupersededReads, EntryOf, NoneEmpty;
    NamesTell(table);
    SupersededKeys();
    FormedRecord(id, BuildRole, BUILD_DUPLICATE_KEYS, BUILD_DUPLICATE, fields, table, payload, m);
  }

  lemma AuditDuplicate(id: int, fields: map<Key, string>, table: FieldTable, payload: string, m: MarkerRecord)
    requires SameTable(fields, table) && NoneEmpty(table) && IsDuplicate(table) && EntryOf(table, "role") == Some("audit")
    ensures RecordOf(id, SupersededV1, fields, payload) == Pass(m) <==>
              && m.kind == SupersededV1 && m.fields == fields && CommonReads(table, payload, id, m)
              && m.role.None? && SupersededReads(table, m)
  {
    SchemaByName(fields, table);
    SupersededForms(table, m);
    hide SameTable, RecordOf, IsHex, IsDigits, CommonReads, Corresponds, HasBasics, SchemaOf, SupersededReads, EntryOf, NoneEmpty;
    NamesTell(table);
    SupersededKeys();
    FormedRecord(id, AuditRole, AUDIT_DUPLICATE_KEYS, AUDIT_DUPLICATE, fields, table, payload, m);
  }

  lemma HeadAdvance(id: int, fields: map<Key, string>, table: FieldTable, payload: string, m: MarkerRecord)
    requires SameTable(fields, table) && NoneEmpty(table)
    requires EntryOf(table, "reason") == Some("head-advanced") && EntryOf(table, "role") == Some("audit")
    ensures RecordOf(id, SupersededV1, fields, payload) == Pass(m) <==>
              && m.kind == SupersededV1 && m.fields == fields && CommonReads(table, payload, id, m)
              && m.role.None? && SupersededReads(table, m)
  {
    SchemaByName(fields, table);
    SupersededForms(table, m);
    hide SameTable, RecordOf, IsHex, IsDigits, CommonReads, Corresponds, HasBasics, SchemaOf, SupersededReads, EntryOf, NoneEmpty;
    NamesTell(table);
    SupersededKeys();
    FormedRecord(id, AuditRole, HEAD_ADVANCE_KEYS, HEAD_ADVANCE, fields, table, payload, m);
  }

  lemma NoForm(id: int, fields: map<Key, string>, table: FieldTable, payload: string, m: MarkerRecord)
    requires SameTable(fields, table)
    requires !(IsDuplicate(table) && EntryOf(table, "role") in {Some("build"), Some("audit")})
    requires !(EntryOf(table, "reason") == Some("head-advanced") && EntryOf(table, "role") == Some("audit"))
    ensures RecordOf(id, SupersededV1, fields, payload).GuardFailure? && !SupersededReads(table, m)
  {
    SchemaByName(fields, table);
    SupersededForms(table, m);
    hide SameTable, RecordOf, IsHex, IsDigits, KeyText, KeyNamed, SchemaOf, SupersededReads, EntryOf;
    NoSchemaNoRecord(id, fields, payload);
  }

  lemma SupersededRecord(id: int, fields: map<Key, string>, table: FieldTable, payload: string, m: MarkerRecord)
    requires SameTable(fields, table) && NoneEmpty(table)
    ensures RecordOf(id, SupersededV1, fields, payload) == Pass(m) <==>
              && m.kind == SupersededV1 && m.fields == fields && CommonReads(table, payload, id, m)
              && m.role.None? && SupersededReads(table, m)
  {
    hide SameTable, RecordOf, CommonReads, SupersededReads, EntryOf, NoneEmpty, IsDuplicate;
    var role := EntryOf(table, "role");
    if IsDuplicate(table) && role == Some("build") {
      BuildDuplicate(id, fields, table, payload, m);
    } else if IsDuplicate(table) && role == Some("audit") {
      AuditDuplicate(id, fields, table, payload, m);
    } else if EntryOf(table, "reason") == Some("head-advanced") && role == Some("audit") {
      HeadAdvance(id, fields, table, payload, m);
    } else {
      NoForm(id, fields, table, payload, m);
    }
  }

  lemma NoSchemaNoRecord(id: int, fields: map<Key, string>, payload: string)
    requires SchemaOf(SupersededV1, fields).GuardFailure?
    ensures RecordOf(id, SupersededV1, fields, payload).GuardFailure?
  {
  }

  /** The body is the text of the marker `m`. */
  ghost predicate MarkerSays(
    body: string, id: int, m: MarkerRecord, name: string, lines: seq<string>, table: FieldTable, payload: string)
  {
    && IsText(body, name, lines, payload) && Tabulates(lines, table)
    && MarkerReads(name, table, NormalizeLines(payload), id, m) && SameTable(m.fields, table)
  }

  /**
   * A comment yields a marker record if and only if it holds one reserved token and its text is that of
   * the record: the fields its kind demands, in any order, each of them the value of its record field.
   */
  lemma MarkerMeansText(c: Comment, m: MarkerRecord)
    ensures MarkerOf(c) == Pass(Some(m)) <==>
              && TokenCount(ToLf(c.body)) == 1
              && exists name, lines, table, payload :: MarkerSays(ToLf(c.body), c.id, m, name, lines, table, payload)
  {
    var body := ToLf(c.body);
    hide ToLf, MarkerSays, MarkerOf;
    if MarkerOf(c) == Pass(Some(m)) {
      var table := MarkerIsText(c, m);
      var block := MatchBlock(body).value;
      assert MarkerSays(body, c.id, m, KindName(m.kind), block.lines, table, block.payload);
    }
    if exists name, lines, table, payload :: MarkerSays(body, c.id, m, name, lines, table, payload) {
      var name, lines, table, payload :| MarkerSays(body, c.id, m, name, lines, table, payload);
      if TokenCount(body) == 1 {
        TextIsMarker(c, m, name, lines, table, payload);
      }
    }
  }

  lemma TableIsFull(lines: seq<string>, table: FieldTable)
    requires Tabulates(lines, table)
    ensures NoneEmpty(table)
  {
  }

  lemma RecordByName(
    id: int, kind: MarkerKind, fields: map<Key, string>, table: FieldTable, payload: string, m: MarkerRecord)
    requires SameTable(fields, table) && NoneEmpty(table) && kind != HumanV1
    ensures RecordOf(id, kind, fields, payload) == Pass(m) <==>
              m.kind == kind && m.fields == fields && MarkerReads(KindName(kind), table, payload, id, m)
  {
    hide SameTable, NoneEmpty, RecordOf, MarkerReads;
    if kind == SupersededV1 {
      SupersededByName(id, fields, table, payload, m);
    } else {
      MarkerByName(id, kind, fields, table, payload, m);
    }
  }

  lemma MarkerIsText(c: Comment, m: MarkerRecord) returns (table: FieldTable)
    requires MarkerOf(c) == Pass(Some(m))
    ensures var body := ToLf(c.body);
            && TokenCount(body) == 1 && MatchBlock(body).Some?
            && MarkerSays(body, c.id, m, KindName(m.kind), MatchBlock(body).value.lines, table, MatchBlock(body).value.payload)
  {
    var body := ToLf(c.body);
    hide ToLf, MatchBlock, RecordOf, MarkerReads, IsText, Tabulates, SameTable, NoneEmpty, FieldMap, LegalFields, TokenCount,
         NormalizeLines, KindName, ReceiptOf;
    var block := MatchBlock(body).value;
    table := MatchedIsText(body);
    TableIsFull(block.lines, table);
    LegalMeansFields(block.lines);
    RecordByName(c.id, block.kind, FieldMap(block.lines), table, NormalizeLines(block.payload), m);
  }

  lemma ReadsName(name: string, table: FieldTable, payload: string, id: int, m: MarkerRecord)
    requires MarkerReads(name, table, payload, id, m)
    ensures name == KindName(m.kind) && m.kind != HumanV1
  {
  }

  lemma TextIsMarker(c: Comment, m: MarkerRecord, name: string, lines: seq<string>, table: FieldTable, payload: string)
    requires TokenCount(ToLf(c.body)) == 1 && MarkerSays(ToLf(c.body), c.id, m, name, lines, table, payload)
    ensures MarkerOf(c) == Pass(Some(m))
  {
    var body := ToLf(c.body);
    hide ToLf, MatchBlock, RecordOf, MarkerReads, IsText, Tabulates, SameTable, NoneEmpty, FieldMap, LegalFields, TokenCount,
         NormalizeLines, KindName, ReceiptOf;
    ReadsName(name, table, NormalizeLines(payload), c.id, m);
    TextIsMatched(body, m.kind, name, lines, table, payload);
    LegalMeansFields(lines);
    TableIsFull(lines, table);
    SameFields(m.fields, FieldMap(lines), table);
    RecordByName(c.id, m.kind, FieldMap(lines), table, NormalizeLines(payload), m);
    assert MatchBlock(body).value.lines == lines;
  }
}

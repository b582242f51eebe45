/** Carrying out a mutation plan on the comments themselves, and what the guard reads afterwards. */
module Reconciliation {
  import opened Wrappers
  import opened Sequences
  import opened GuardText
  import opened MarkerText
  import opened Markers

  // ----- Clean values -----

  /** A field value that can be printed without disturbing the marker around it. */
  ghost predicate CleanValue(v: string) {
    v != "" && '\n' !in v && '\r' !in v && TokenCount(v) == 0
  }

  lemma {:induction false} NoDashNoToken(s: string)
    requires forall i | 0 <= i < |s| :: s[i] != '-'
    ensures TokenCount(s) == 0
  {
    if s != "" {
      assert !StartsWithToken(s) by {
        if StartsWithToken(s) {
          TokenShape(s);
        }
      }
      NoDashNoToken(s[1..]);
    }
  }

  lemma ShaIsClean(sha: string)
    requires IsFullSha(sha)
    ensures CleanValue(sha)
  {
    NoDashNoToken(sha);
  }

  lemma {:induction false} SplitChars(s: string, sep: char, i: nat, c: char)
    requires i < |SplitOn(s, sep)| && c in SplitOn(s, sep)[i]
    ensures c in s
  {
    if s != "" {
      var rest := SplitOn(s[1..], sep);
      if s[0] == sep {
        SplitChars(s[1..], sep, i - 1, c);
      } else if i > 0 {
        SplitChars(s[1..], sep, i, c);
      } else if c != s[0] {
        SplitChars(s[1..], sep, 0, c);
      }
    }
  }

  lemma {:induction false} TokenSumCovers(lines: seq<string>, i: nat)
    requires i < |lines|
    ensures TokenCount(lines[i]) <= TokenSum(lines)
  {
    if i > 0 {
      TokenSumCovers(lines[1..], i - 1);
    }
  }

  /** The single token a marker comment may hold is the one in its header. */
  lemma BlockIsTokenFree(body: string)
    requires TokenCount(body) == 1 && MatchBlock(body).Some?
    ensures var block := MatchBlock(body).value;
            && TokenCount(block.payload) == 0
            && forall i | 0 <= i < |block.lines| :: TokenCount(block.lines[i]) == 0
  {
    var block := MatchBlock(body).value;
    MatchIsRender(body);
    TokensOfRender(block);
    forall i | 0 <= i < |block.lines| ensures TokenCount(block.lines[i]) == 0 {
      TokenSumCovers(block.lines, i);
    }
  }

  /** The grammar reads every field line off one line of the body. */
  lemma BlockLinesAreLines(body: string)
    requires MatchBlock(body).Some? && '\r' !in body
    ensures forall i | 0 <= i < |MatchBlock(body).value.lines| ::
              '\n' !in MatchBlock(body).value.lines[i] && '\r' !in MatchBlock(body).value.lines[i]
  {
    hide HeaderKind;
    var rest := body[IndexOf(body, '\n') + 1..];
    var text := rest[..FindCloser(rest)];
    SplitHasNoSeparator(text, '\n');
    forall i | 0 <= i < |SplitOn(text, '\n')| ensures '\r' !in SplitOn(text, '\n')[i] {
      if '\r' in SplitOn(text, '\n')[i] {
        SplitChars(text, '\n', i, '\r');
      }
    }
  }

  /** The raw payload of a marker comment. */
  function RawPayload(comment: Comment): string {
    var block := MatchBlock(ToLf(comment.body));
    if block.Some? then block.value.payload else ""
  }

  lemma FieldIsClean(line: string)
    requires IsField(line) && '\n' !in line && '\r' !in line && TokenCount(line) == 0
    ensures CleanValue(FieldValue(line))
  {
    hide TokenCount;
    FieldTokens(line);
  }

  lemma FieldsAreClean(lines: seq<string>, key: Key)
    requires LegalFields(lines) && key in FieldMap(lines)
    requires forall i | 0 <= i < |lines| :: '\n' !in lines[i] && '\r' !in lines[i] && TokenCount(lines[i]) == 0
    ensures CleanValue(FieldMap(lines)[key])
  {
    hide TokenCount, FieldMap, IsField, FieldKey, FieldValue, CleanValue;
    FieldMapKeys(lines, key);
    var i :| 0 <= i < |lines| && FieldKey(lines[i]) == key;
    FieldMapAt(lines, i);
    FieldIsClean(lines[i]);
  }

  /** Everything a parsed marker carries can be printed again. */
  lemma ParsedIsClean(comment: Comment, record: MarkerRecord)
    requires MarkerOf(comment) == Pass(Some(record))
    ensures forall key | key in record.fields :: CleanValue(record.fields[key])
    ensures TokenCount(RawPayload(comment)) == 0
    ensures record.payload == NormalizeLines(RawPayload(comment))
    ensures '\r' !in RawPayload(comment)
  {
    hide RecordOf, TokenCount, NormalizeLines, FieldMap, CleanValue, MatchBlock;
    var body := ToLf(comment.body);
    var lines := MatchBlock(body).value.lines;
    BlockIsTokenFree(body);
    ToLfClean(comment.body);
    BlockLinesAreLines(body);
    PayloadHasNoReturn(body);
    assert record.fields == FieldMap(lines);
    forall key | key in record.fields ensures CleanValue(record.fields[key]) {
      FieldsAreClean(lines, key);
    }
  }

  lemma PayloadHasNoReturn(body: string)
    requires MatchBlock(body).Some? && '\r' !in body
    ensures '\r' !in MatchBlock(body).value.payload
  {
    var block := MatchBlock(body).value;
    MatchIsRender(body);
    assert body[|body| - |block.payload|..] == block.payload;
  }

  // ----- Printing a field list -----

  type Field = (Key, string)

  function FieldLines(pairs: seq<Field>): (lines: seq<string>)
    ensures |lines| == |pairs|
    ensures forall i | 0 <= i < |pairs| :: lines[i] == FieldLine(pairs[i].0, pairs[i].1)
  {
    Map((p: Field) => FieldLine(p.0, p.1), pairs)
  }

  ghost predicate Printable(pairs: seq<Field>) {
    && (forall i | 0 <= i < |pairs| :: !pairs[i].0.OtherKey? && CleanValue(pairs[i].1))
    && (forall i, j | 0 <= i < j < |pairs| :: pairs[i].0 != pairs[j].0)
  }

  function PairMap(pairs: seq<Field>): map<Key, string>
    requires forall i | 0 <= i < |pairs| :: !pairs[i].0.OtherKey? && pairs[i].1 != ""
  {
    assert forall i | 0 <= i < |pairs| :: IsField(FieldLines(pairs)[i]) by {
      forall i | 0 <= i < |pairs| ensures IsField(FieldLines(pairs)[i]) {
        FieldLineParts(pairs[i].0, pairs[i].1);
      }
    }
    FieldMap(FieldLines(pairs))
  }

  lemma PrintedLine(pairs: seq<Field>, i: nat)
    requires Printable(pairs) && i < |pairs|
    ensures var line := FieldLines(pairs)[i];
            && IsField(line) && FieldKey(line) == pairs[i].0 && FieldValue(line) == pairs[i].1
            && '\n' !in line && '\r' !in line && TokenCount(FieldValue(line)) == 0
  {
    hide TokenCount;
    FieldLineParts(pairs[i].0, pairs[i].1);
  }

  lemma PrintableIsPrinted(pairs: seq<Field>)
    requires Printable(pairs) && |pairs| > 0
    ensures Prints(FieldLines(pairs), PairMap(pairs))
    ensures forall i | 0 <= i < |pairs| :: pairs[i].0 in PairMap(pairs) && PairMap(pairs)[pairs[i].0] == pairs[i].1
    ensures forall key | key in PairMap(pairs) :: exists i :: 0 <= i < |pairs| && pairs[i].0 == key
  {
    hide TokenCount, IsField, FieldValue, FieldKey, FieldMap, FieldLine, IsKey;
    var lines := FieldLines(pairs);
    forall i | 0 <= i < |pairs|
      ensures IsField(lines[i]) && FieldKey(lines[i]) == pairs[i].0 && FieldValue(lines[i]) == pairs[i].1
      ensures '\n' !in lines[i] && '\r' !in lines[i] && TokenCount(FieldValue(lines[i])) == 0
    {
      PrintedLine(pairs, i);
    }
    forall i | 0 <= i < |pairs| ensures pairs[i].0 in PairMap(pairs) && PairMap(pairs)[pairs[i].0] == pairs[i].1 {
      FieldMapAt(lines, i);
    }
    forall key | key in PairMap(pairs) ensures exists i :: 0 <= i < |pairs| && pairs[i].0 == key {
      FieldMapKeys(lines, key);
    }
  }

  function Printed(id: int, kind: MarkerKind, pairs: seq<Field>, payload: string): Comment {
    Comment(id, Render(Block(kind, FieldLines(pairs), payload)))
  }

  lemma PrintedParses(id: int, kind: MarkerKind, pairs: seq<Field>, payload: string)
    requires kind != HumanV1 && Printable(pairs) && |pairs| > 0 && TokenCount(ToLf(payload)) == 0
    ensures MarkerOf(Printed(id, kind, pairs, payload))
         == var r := RecordOf(id, kind, PairMap(pairs), NormalizeLines(payload));
            if r.Pass? then Pass(Some(r.value)) else GuardFailure
  {
    hide RecordOf, TokenCount, MatchBlock, Render, NormalizeLines, ToLf;
    PrintableIsPrinted(pairs);
    var block := Block(kind, FieldLines(pairs), payload);
    var read := block.(payload := ToLf(payload));
    RenderedToLf(block);
    RenderedTokens(read);
    MatchRender(read);
    NormalizeIgnoresReturns(payload);
  }

  // ----- The three edits a plan may ask for -----

  function RoleName(role: Role): string {
    if role.BuildRole? then "build" else "audit"
  }

  function StatusName(status: Status): string {
    match status case Pending => "PENDING" case Passed => "PASS" case Failed => "FAIL"
  }

  function Decimal(n: nat): (s: string)
    ensures IsDigits(s)
  {
    (if n < 10 then "" else Decimal(n / 10)) + [(n % 10 + '0' as int) as char]
  }

  function ReviewerFields(m: MarkerRecord): seq<Field> {
    if m.reviewer.Some? then [(ReviewerKey, m.reviewer.value)] else []
  }

  function DuplicateFields(m: MarkerRecord, role: Role, canonical: nat): seq<Field> {
    [(BlockKey, m.block), (ShaKey, m.sha), (StatusKey, StatusName(m.status)), (RoleKey, RoleName(role)),
     (CanonicalKey, Decimal(canonical)), (ReasonKey, EQUIVALENT_DUPLICATE)] + ReviewerFields(m)
  }

  function ArchiveFields(m: MarkerRecord, head: string): seq<Field> {
    [(BlockKey, m.block), (ShaKey, m.sha), (StatusKey, StatusName(m.status)), (RoleKey, "audit"),
     (ReasonKey, HEAD_ADVANCED), (SupersededByKey, head)] + ReviewerFields(m)
  }

  function RetargetFields(m: MarkerRecord, head: string): seq<Field> {
    [(BlockKey, m.block), (ShaKey, head), (StatusKey, "PENDING")]
    + if ManifestKey in m.fields then [(ManifestKey, m.fields[ManifestKey])] else []
  }

  /** What a record that passed `RecordOf` is made of. */
  lemma RecordShape(m: MarkerRecord)
    requires m.kind != HumanV1 && RecordOf(m.commentId, m.kind, m.fields, m.payload) == Pass(m)
    requires m.role.Some?
    ensures m.kind in {BuildV1, AuditV1, BuildV2, AuditV2}
    ensures m.role == Some(BuildRole) <==> m.kind in {BuildV1, BuildV2}
    ensures BlockKey in m.fields && m.fields[BlockKey] == m.block
    ensures ShaKey in m.fields && m.fields[ShaKey] == m.sha && IsFullSha(m.sha)
    ensures m.status == Pending ==> m.role == Some(BuildRole)
    ensures m.reviewer.Some? <==> m.role == Some(AuditRole)
    ensures m.reviewer.Some? ==> ReviewerKey in m.fields && m.fields[ReviewerKey] == m.reviewer.value
    ensures m.kind in {BuildV2, AuditV2} <==> ManifestKey in m.fields
    ensures ManifestKey in m.fields ==> IsSha256(m.fields[ManifestKey])
    ensures !(m.fields.Keys !! {BlockKey}) && m.fields.Keys !! {RoleKey, CanonicalKey, ReasonKey}
  {
  }

  lemma NamesAreClean(role: Role, status: Status, n: nat)
    ensures CleanValue(RoleName(role)) && CleanValue(StatusName(status)) && CleanValue(Decimal(n))
    ensures CleanValue("audit") && CleanValue("PENDING")
    ensures CleanValue(EQUIVALENT_DUPLICATE) && CleanValue(HEAD_ADVANCED)
  {
    hide TokenCount;
    ShortHasNoToken(RoleName(role));
    ShortHasNoToken(StatusName(status));
    NoDashNoToken(Decimal(n));
    ShortHasNoToken("audit");
    ShortHasNoToken("PENDING");
    ShortHasNoToken(EQUIVALENT_DUPLICATE);
    ShortHasNoToken(HEAD_ADVANCED);
  }

  lemma StatusRoundTrip(role: Role, status: Status)
    requires status == Pending ==> role.BuildRole?
    ensures StatusNamed(role, StatusName(status)) == Pass(status)
  {
  }

  lemma {:induction false} DuplicateFieldsPrint(m: MarkerRecord, role: Role, canonical: nat)
    requires m.kind != HumanV1 && RecordOf(m.commentId, m.kind, m.fields, m.payload) == Pass(m)
    requires m.role == Some(role) && forall key | key in m.fields :: CleanValue(m.fields[key])
    ensures Printable(DuplicateFields(m, role, canonical))
  {
    hide RecordOf, TokenCount, Decimal, CleanValue;
    RecordShape(m);
    NamesAreClean(role, m.status, canonical);
  }

  lemma KeysOf(pairs: seq<Field>)
    requires Printable(pairs) && |pairs| > 0
    ensures PairMap(pairs).Keys == set i | 0 <= i < |pairs| :: pairs[i].0
  {
    PrintableIsPrinted(pairs);
  }

  /** All that the edits below need to know of a parsed marker. */
  lemma MarkerParts(comment: Comment, m: MarkerRecord)
    requires MarkerOf(comment) == Pass(Some(m))
    ensures m.kind != HumanV1 && RecordOf(m.commentId, m.kind, m.fields, m.payload) == Pass(m)
    ensures m.commentId == comment.id
    ensures forall key | key in m.fields :: CleanValue(m.fields[key])
    ensures TokenCount(ToLf(RawPayload(comment))) == 0 && m.payload == NormalizeLines(RawPayload(comment))
  {
    hide RawPayload, NormalizeLines, RecordOf, TokenCount, CleanValue, Render, MatchBlock, FieldMap, LegalFields;
    ParsedIsRendered(comment, m);
    ParsedIsClean(comment, m);
    ToLfClean(RawPayload(comment));
  }

  /** A superseded duplicate still parses, and speaks for no role. */
  lemma SupersededParses(comment: Comment, m: MarkerRecord, role: Role, canonical: nat)
    returns (after: MarkerRecord)
    requires MarkerOf(comment) == Pass(Some(m)) && m.role == Some(role)
    ensures MarkerOf(Printed(comment.id, SupersededV1, DuplicateFields(m, role, canonical), RawPayload(comment)))
         == Pass(Some(after))
    ensures after.commentId == comment.id && after.role == None && after.archivedRole == Some(role)
    ensures after.payload == m.payload && after.sha == m.sha && after.block == m.block && after.status == m.status
  {
    hide MarkerOf, RawPayload, NormalizeLines, PairMap, TokenCount, Printed, ToLf;
    MarkerParts(comment, m);
    RecordShape(m);
    DuplicateFieldsPrint(m, role, canonical);
    var pairs := DuplicateFields(m, role, canonical);
    PrintedParses(comment.id, SupersededV1, pairs, RawPayload(comment));
    PrintableIsPrinted(pairs);
    KeysOf(pairs);
    StatusRoundTrip(role, m.status);
    after := DuplicateRecord(comment.id, m, role, canonical, PairMap(pairs));
  }

  lemma DuplicateRecord(id: int, m: MarkerRecord, role: Role, canonical: nat, fields: map<Key, string>)
    returns (after: MarkerRecord)
    requires var pairs := DuplicateFields(m, role, canonical);
             && fields.Keys == (set i | 0 <= i < |pairs| :: pairs[i].0)
             && forall i | 0 <= i < |pairs| :: pairs[i].0 in fields && fields[pairs[i].0] == pairs[i].1
    requires IsFullSha(m.sha) && m.block != ""
    requires m.reviewer.Some? <==> role == AuditRole
    requires m.reviewer.Some? ==> m.reviewer.value != ""
    requires m.status == Pending ==> role.BuildRole?
    ensures RecordOf(id, SupersededV1, fields, m.payload) == Pass(after)
    ensures after.commentId == id && after.role == None && after.archivedRole == Some(role)
    ensures after.payload == m.payload && after.sha == m.sha && after.block == m.block && after.status == m.status
  {
    var pairs := DuplicateFields(m, role, canonical);
    assert fields[pairs[0].0] == m.block && fields[pairs[1].0] == m.sha;
    assert fields[pairs[2].0] == StatusName(m.status) && fields[pairs[3].0] == RoleName(role);
    assert fields[pairs[4].0] == Decimal(canonical) && fields[pairs[5].0] == EQUIVALENT_DUPLICATE;
    assert role.AuditRole? ==> fields[pairs[6].0] == m.reviewer.value;
    assert fields.Keys == DuplicateKeys(role);
    after := RecordOf(id, SupersededV1, fields, m.payload).value;
  }

  /** An archived audit marker still parses, and speaks for no role. */
  lemma ArchivedParses(comment: Comment, m: MarkerRecord, head: string) returns (after: MarkerRecord)
    requires MarkerOf(comment) == Pass(Some(m)) && m.role == Some(AuditRole)
    requires IsFullSha(head) && head != m.sha
    ensures MarkerOf(Printed(comment.id, SupersededV1, ArchiveFields(m, head), RawPayload(comment)))
         == Pass(Some(after))
    ensures after.commentId == comment.id && after.role == None && after.archivedRole == Some(AuditRole)
    ensures after.payload == m.payload && after.sha == m.sha && after.block == m.block && after.status == m.status
  {
    hide MarkerOf, RawPayload, NormalizeLines, PairMap, TokenCount, Printed, ToLf;
    MarkerParts(comment, m);
    RecordShape(m);
    ArchiveFieldsPrint(m, head);
    var pairs := ArchiveFields(m, head);
    PrintedParses(comment.id, SupersededV1, pairs, RawPayload(comment));
    PrintableIsPrinted(pairs);
    KeysOf(pairs);
    StatusRoundTrip(AuditRole, m.status);
    after := ArchiveRecord(comment.id, m, head, PairMap(pairs));
  }

  lemma ArchiveFieldsPrint(m: MarkerRecord, head: string)
    requires m.kind != HumanV1 && RecordOf(m.commentId, m.kind, m.fields, m.payload) == Pass(m)
    requires m.role == Some(AuditRole) && forall key | key in m.fields :: CleanValue(m.fields[key])
    requires IsFullSha(head)
    ensures Printable(ArchiveFields(m, head))
  {
    hide RecordOf, TokenCount, CleanValue, IsFullSha;
    RecordShape(m);
    ShaIsClean(head);
    NamesAreClean(AuditRole, m.status, 0);
  }

  lemma ArchiveRecord(id: int, m: MarkerRecord, head: string, fields: map<Key, string>)
    returns (after: MarkerRecord)
    requires var pairs := ArchiveFields(m, head);
             && fields.Keys == (set i | 0 <= i < |pairs| :: pairs[i].0)
             && forall i | 0 <= i < |pairs| :: pairs[i].0 in fields && fields[pairs[i].0] == pairs[i].1
    requires IsFullSha(m.sha) && IsFullSha(head) && head != m.sha && m.block != ""
    requires m.reviewer.Some? && m.reviewer.value != "" && m.status != Pending
    ensures RecordOf(id, SupersededV1, fields, m.payload) == Pass(after)
    ensures after.commentId == id && after.role == None && after.archivedRole == Some(AuditRole)
    ensures after.payload == m.payload && after.sha == m.sha && after.block == m.block && after.status == m.status
  {
    var pairs := ArchiveFields(m, head);
    assert fields[pairs[0].0] == m.block && fields[pairs[1].0] == m.sha;
    assert fields[pairs[2].0] == StatusName(m.status) && fields[pairs[3].0] == "audit";
    assert fields[pairs[4].0] == HEAD_ADVANCED && fields[pairs[5].0] == head;
    assert fields[pairs[6].0] == m.reviewer.value;
    assert fields.Keys == ARCHIVE_KEYS;
    after := RecordOf(id, SupersededV1, fields, m.payload).value;
  }

  /** A retargeted build marker is a PENDING build marker for the current head. */
  lemma RetargetedParses(comment: Comment, m: MarkerRecord, head: string, note: string) returns (after: MarkerRecord)
    requires MarkerOf(comment) == Pass(Some(m)) && m.role == Some(BuildRole)
    requires IsFullSha(head) && TokenCount(ToLf(note)) == 0
    ensures MarkerOf(Printed(comment.id, m.kind, RetargetFields(m, head), note)) == Pass(Some(after))
    ensures after.commentId == comment.id && after.role == Some(BuildRole) && after.kind == m.kind
    ensures after.sha == head && after.block == m.block && after.status == Pending
  {
    hide MarkerOf, RawPayload, NormalizeLines, PairMap, TokenCount, Printed, ToLf;
    MarkerParts(comment, m);
    RecordShape(m);
    RetargetFieldsPrint(m, head);
    var pairs := RetargetFields(m, head);
    PrintedParses(comment.id, m.kind, pairs, note);
    PrintableIsPrinted(pairs);
    KeysOf(pairs);
    after := RetargetRecord(comment.id, m, head, PairMap(pairs), NormalizeLines(note));
  }

  lemma RetargetFieldsPrint(m: MarkerRecord, head: string)
    requires m.kind != HumanV1 && RecordOf(m.commentId, m.kind, m.fields, m.payload) == Pass(m)
    requires m.role.Some? && forall key | key in m.fields :: CleanValue(m.fields[key])
    requires IsFullSha(head)
    ensures Printable(RetargetFields(m, head))
  {
    hide RecordOf, TokenCount, CleanValue, IsFullSha;
    RecordShape(m);
    ShaIsClean(head);
    NamesAreClean(BuildRole, Pending, 0);
  }

  lemma RetargetRecord(id: int, m: MarkerRecord, head: string, fields: map<Key, string>, payload: string)
    returns (after: MarkerRecord)
    requires var pairs := RetargetFields(m, head);
             && fields.Keys == (set i | 0 <= i < |pairs| :: pairs[i].0)
             && forall i | 0 <= i < |pairs| :: pairs[i].0 in fields && fields[pairs[i].0] == pairs[i].1
    requires IsFullSha(head) && m.block != "" && m.kind in {BuildV1, BuildV2}
    requires m.kind == BuildV2 <==> ManifestKey in m.fields
    requires ManifestKey in m.fields ==> IsSha256(m.fields[ManifestKey])
    ensures RecordOf(id, m.kind, fields, payload) == Pass(after)
    ensures after.commentId == id && after.role == Some(BuildRole) && after.kind == m.kind
    ensures after.sha == head && after.block == m.block && after.status == Pending
  {
    var pairs := RetargetFields(m, head);
    assert fields[pairs[0].0] == m.block && fields[pairs[1].0] == head && fields[pairs[2].0] == "PENDING";
    assert m.kind == BuildV2 ==> fields[pairs[3].0] == m.fields[ManifestKey];
    assert fields.Keys == SchemaOf(m.kind, fields).value.keys;
    after := RecordOf(id, m.kind, fields, payload).value;
  }

  // ----- Applying a plan -----

  /** What reconciliation acts on: both resolutions, the live head and a note for a retargeted marker. */
  datatype Context = Context(build: Resolution, audit: Resolution, head: string, note: string) {
    function For(role: Role): Resolution {
      if role.BuildRole? then build else audit
    }

    function Plan(): seq<Mutation> {
      PlanOf(build, audit)
    }

    /** The comment that stays when its duplicates are superseded. */
    function Survivor(role: Role): nat {
      var r := For(role);
      var id := if r.marker.Some? then r.marker.value.commentId
                else if r.stale != [] then Canonical(r.stale).commentId else 0;
      if id < 0 then 0 else id
    }

    function Edit(comment: Comment): Comment {
      var marker := MarkerOf(comment);
      if marker.GuardFailure? || marker.value.None? || marker.value.value.role.None? then comment
      else
        var m := marker.value.value;
        var role := m.role.value;
        if Supersede(role, comment.id) in Plan() then
          Printed(comment.id, SupersededV1, DuplicateFields(m, role, Survivor(role)), RawPayload(comment))
        else if role.AuditRole? && ArchiveAudit(comment.id) in Plan() then
          Printed(comment.id, SupersededV1, ArchiveFields(m, head), RawPayload(comment))
        else if role.BuildRole? && RetargetBuild(comment.id) in Plan() then
          Printed(comment.id, m.kind, RetargetFields(m, head), note)
        else comment
    }

    function Apply(comments: seq<Comment>): seq<Comment> {
      Map((c: Comment) => Edit(c), comments)
    }
  }

  // ----- The edit the protocol document describes -----

  function AddedFields(role: Role, canonical: nat): seq<Field> {
    [(RoleKey, RoleName(role)), (CanonicalKey, Decimal(canonical)), (ReasonKey, EQUIVALENT_DUPLICATE)]
  }

  /** Rename the marker, add three fields, and preserve everything else. */
  function DocumentedEdit(comment: Comment, role: Role, canonical: nat): Comment {
    var block := MatchBlock(ToLf(comment.body));
    var lines := if block.Some? then block.value.lines else [];
    Comment(comment.id,
            Render(Block(SupersededV1, lines + FieldLines(AddedFields(role, canonical)), RawPayload(comment))))
  }

  lemma AddedFieldsPrint(role: Role, canonical: nat)
    ensures Printable(AddedFields(role, canonical))
  {
    hide TokenCount, Decimal, CleanValue;
    NamesAreClean(role, Passed, canonical);
  }

  lemma BlockOfMarker(comment: Comment, m: MarkerRecord) returns (lines: seq<string>)
    requires MarkerOf(comment) == Pass(Some(m))
    ensures MatchBlock(ToLf(comment.body)).Some? && lines == MatchBlock(ToLf(comment.body)).value.lines
    ensures Prints(lines, m.fields)
  {
    hide RecordOf, NormalizeLines, TokenCount, MatchBlock, FieldMap, IsField, FieldValue;
    var body := ToLf(comment.body);
    lines := MatchBlock(body).value.lines;
    MatchIsRender(body);
    BlockIsTokenFree(body);
    ToLfClean(comment.body);
    BlockLinesAreLines(body);
    forall i | 0 <= i < |lines| ensures TokenCount(FieldValue(lines[i])) == 0 {
      LineTokens(lines[i]);
    }
  }

  lemma LineTokens(line: string)
    requires IsField(line) && TokenCount(line) == 0
    ensures TokenCount(FieldValue(line)) == 0
  {
    hide TokenCount;
    FieldTokens(line);
  }

  lemma {:induction false} FieldMapAppend(a: seq<string>, b: seq<string>)
    requires forall i | 0 <= i < |a| :: IsField(a[i])
    requires forall i | 0 <= i < |b| :: IsField(b[i])
    ensures FieldMap(a + b) == FieldMap(a) + FieldMap(b)
  {
    hide IsField, FieldKey, FieldValue;
    if b == [] {
      assert a + b == a;
    } else {
      var n := |b| - 1;
      assert (a + b)[..|a + b| - 1] == a + b[..n];
      FieldMapAppend(a, b[..n]);
    }
  }

  lemma PrintsAppend(a: seq<string>, fa: map<Key, string>, b: seq<string>, fb: map<Key, string>)
    requires Prints(a, fa) && Prints(b, fb) && fa.Keys !! fb.Keys
    ensures Prints(a + b, fa + fb)
  {
    hide FieldMap, IsField, FieldKey, FieldValue, TokenCount;
    FieldMapAppend(a, b);
    forall i, j | 0 <= i < j < |a + b| ensures FieldKey((a + b)[i]) != FieldKey((a + b)[j]) {
      if i < |a| && j >= |a| {
        FieldMapKeys(a, FieldKey(a[i]));
        FieldMapKeys(b, FieldKey(b[j - |a|]));
        assert FieldKey(a[i]) in fa.Keys && FieldKey(b[j - |a|]) in fb.Keys;
      }
    }
  }

  /**
   * Superseding a duplicate exactly as the protocol document says is read back only for v1 markers:
   * a v2 marker keeps its manifest digest, which the superseded form does not admit.
   */
  lemma DocumentedEditParses(comment: Comment, m: MarkerRecord, role: Role, canonical: nat)
    requires MarkerOf(comment) == Pass(Some(m)) && m.role == Some(role)
    ensures MarkerOf(DocumentedEdit(comment, role, canonical)).Pass? <==> m.kind in {BuildV1, AuditV1}
  {
    hide MarkerOf, RawPayload, NormalizeLines, PairMap, MatchBlock, Prints, RecordOf, Decimal, CleanValue, FieldLines,
         AddedFields, RoleName, ToLf, Render, TokenCount, Printable;
    var lines := BlockOfMarker(comment, m);
    ParsedIsClean(comment, m);
    ParsedIsRendered(comment, m);
    RecordShape(m);
    var added := AddedMap(role, canonical);
    PrintsAppend(lines, m.fields, FieldLines(AddedFields(role, canonical)), added);
    PrintsParses(comment.id, lines + FieldLines(AddedFields(role, canonical)), m.fields + added, RawPayload(comment));
    DocumentedRecord(comment.id, m, role, canonical, added, NormalizeLines(RawPayload(comment)));
  }

  lemma AddedMap(role: Role, canonical: nat) returns (added: map<Key, string>)
    ensures added == map[RoleKey := RoleName(role), CanonicalKey := Decimal(canonical), ReasonKey := EQUIVALENT_DUPLICATE]
    ensures Prints(FieldLines(AddedFields(role, canonical)), added)
  {
    hide PairMap, Prints, Decimal, TokenCount, RoleName;
    var pairs := AddedFields(role, canonical);
    AddedFieldsPrint(role, canonical);
    PrintableIsPrinted(pairs);
    added := PairMap(pairs);
    assert added[pairs[0].0] == RoleName(role);
    assert added[pairs[1].0] == Decimal(canonical);
    assert added[pairs[2].0] == EQUIVALENT_DUPLICATE;
  }

  lemma PrintsParses(id: int, lines: seq<string>, fields: map<Key, string>, payload: string)
    requires Prints(lines, fields) && TokenCount(payload) == 0 && '\r' !in payload
    ensures MarkerOf(Comment(id, Render(Block(SupersededV1, lines, payload)))).Pass?
       <==> RecordOf(id, SupersededV1, fields, NormalizeLines(payload)).Pass?
  {
    hide RecordOf, TokenCount, MatchBlock, Render, NormalizeLines, FieldMap, FieldValue, IsField;
    var block := Block(SupersededV1, lines, payload);
    ToLfClean(payload);
    RenderedToLf(block);
    RenderedTokens(block);
    MatchRender(block);
  }

  lemma DocumentedRecord(
    id: int, m: MarkerRecord, role: Role, canonical: nat, added: map<Key, string>, payload: string)
    requires m.kind != HumanV1 && RecordOf(m.commentId, m.kind, m.fields, m.payload) == Pass(m) && m.role == Some(role)
    requires added == map[RoleKey := RoleName(role), CanonicalKey := Decimal(canonical), ReasonKey := EQUIVALENT_DUPLICATE]
    ensures RecordOf(id, SupersededV1, m.fields + added, payload).Pass? <==> m.kind in {BuildV1, AuditV1}
  {
    RecordShape(m);
    var fields := m.fields + added;
    assert fields[RoleKey] == RoleName(role) && fields[ReasonKey] == EQUIVALENT_DUPLICATE;
    assert fields[CanonicalKey] == Decimal(canonical);
    assert SchemaOf(SupersededV1, fields) == Pass(Schema(role, DuplicateKeys(role)));
    if m.kind in {BuildV1, AuditV1} {
      assert m.fields.Keys == SchemaOf(m.kind, m.fields).value.keys;
      assert fields.Keys == DuplicateKeys(role);
    } else {
      assert ManifestKey in fields && ManifestKey !in DuplicateKeys(role);
    }
  }
}

/** Marker comments: their text form, its parser, and the records it yields. */
module MarkerText {
  import opened Wrappers
  import opened GuardText

  datatype Comment = Comment(id: int, body: string)

  datatype MarkerKind = BuildV1 | AuditV1 | BuildV2 | AuditV2 | HumanV1 | SupersededV1

  datatype Role = BuildRole | AuditRole

  datatype Status = Pending | Passed | Failed

  /** `role` is the active role; a superseded marker only keeps `archivedRole`. */
  datatype MarkerRecord = MarkerRecord(
    commentId: int,
    role: Option<Role>,
    archivedRole: Option<Role>,
    kind: MarkerKind,
    block: string,
    sha: string,
    status: Status,
    reviewer: Option<string>,
    payload: string,
    fields: map<Key, string>)

  datatype HumanDecision = Approve | Reject

  datatype HumanReceipt = HumanReceipt(
    commentId: int, block: string, sha: string, decision: HumanDecision, manifestDigest: string)

  /** What the marker grammar finds in a body, before any field is checked. */
  datatype Block = Block(kind: MarkerKind, lines: seq<string>, payload: string)

  // ----- Reserved tokens -----

  const ALL_KINDS: seq<MarkerKind> := [BuildV1, AuditV1, BuildV2, AuditV2, HumanV1, SupersededV1]

  function KindName(kind: MarkerKind): string {
    match kind
    case BuildV1 => "build-v1"
    case AuditV1 => "audit-v1"
    case BuildV2 => "build-v2"
    case AuditV2 => "audit-v2"
    case HumanV1 => "human-v1"
    case SupersededV1 => "superseded-v1"
  }

  const TOKEN_STEM := "development-workflow:"

  function Token(kind: MarkerKind): string {
    TOKEN_STEM + KindName(kind)
  }

  /** The kind whose name `s` starts with. */
  function KindAt(s: string): Option<MarkerKind> {
    if "build-v1" <= s then Some(BuildV1)
    else if "audit-v1" <= s then Some(AuditV1)
    else if "build-v2" <= s then Some(BuildV2)
    else if "audit-v2" <= s then Some(AuditV2)
    else if "human-v1" <= s then Some(HumanV1)
    else if "superseded-v1" <= s then Some(SupersededV1)
    else None
  }

  predicate StartsWithToken(s: string) {
    TOKEN_STEM <= s && KindAt(s[|TOKEN_STEM|..]).Some?
  }

  /** How many reserved tokens occur in `s`. */
  function TokenCount(s: string): nat {
    if s == "" then 0 else (if StartsWithToken(s) then 1 else 0) + TokenCount(s[1..])
  }

  predicate IsTokenChar(c: char) {
    'a' <= c <= 'z' || '0' <= c <= '9' || c == '-' || c == ':'
  }

  lemma TokenChars(kind: MarkerKind)
    ensures |Token(kind)| >= 29
    ensures forall i | 0 <= i < |Token(kind)| :: IsTokenChar(Token(kind)[i])
    ensures Token(kind)[0] == 'd' && Token(kind)[11] == '-'
  {
    var name := KindName(kind);
    assert |name| >= 8;
    assert forall i | 0 <= i < |name| :: IsTokenChar(name[i]);
    assert forall i | 0 <= i < |TOKEN_STEM| :: IsTokenChar(TOKEN_STEM[i]);
  }

  function NameLength(kind: MarkerKind): (n: nat)
    ensures n == |KindName(kind)|
  {
    if kind.SupersededV1? then 13 else 8
  }

  lemma PrefixAt(p: string, s: string, i: nat)
    requires p <= s && i < |p|
    ensures s[i] == p[i]
  {
  }

  lemma KindAtIsPrefix(s: string, kind: MarkerKind)
    ensures KindName(kind) <= s <==> KindAt(s) == Some(kind)
  {
    if KindName(kind) <= s {
      PrefixAt(KindName(kind), s, 0);
      PrefixAt(KindName(kind), s, 7);
      match kind {
        case BuildV1 => assert s[0] == 'b' && s[7] == '1';
        case AuditV1 => assert s[0] == 'a' && s[7] == '1';
        case BuildV2 => assert s[0] == 'b' && s[7] == '2';
        case AuditV2 => assert s[0] == 'a' && s[7] == '2';
        case HumanV1 => assert s[0] == 'h';
        case SupersededV1 => assert s[0] == 's';
      }
    }
  }

  lemma PrefixOfConcat(a: string, b: string, s: string)
    ensures a + b <= s <==> a <= s && b <= s[|a|..]
  {
    if a + b <= s {
      assert s[..|a + b|] == a + b;
      assert s[..|a|] == a && s[|a|..][..|b|] == b;
    }
    if a <= s && b <= s[|a|..] {
      assert s[..|a|] == a && s[|a|..][..|b|] == b;
      assert s[..|a + b|] == a + b;
    }
  }

  lemma TokenIsPrefix(s: string, kind: MarkerKind)
    ensures Token(kind) <= s <==> TOKEN_STEM <= s && KindAt(s[|TOKEN_STEM|..]) == Some(kind)
  {
    hide KindAt, KindName;
    PrefixOfConcat(TOKEN_STEM, KindName(kind), s);
    if TOKEN_STEM <= s {
      KindAtIsPrefix(s[|TOKEN_STEM|..], kind);
    }
  }

  lemma TokenShape(s: string)
    requires StartsWithToken(s)
    ensures |s| >= 29 && s[0] == 'd' && s[11] == '-'
    ensures forall i | 0 <= i < 29 :: IsTokenChar(s[i])
  {
    var kind := KindAt(s[|TOKEN_STEM|..]).value;
    TokenIsPrefix(s, kind);
    TokenChars(kind);
    assert forall i | 0 <= i < 29 :: s[i] == Token(kind)[i];
  }

  lemma NoTokenUnless(s: string)
    requires |s| < 29 || s[0] != 'd'
    ensures !StartsWithToken(s)
  {
    if StartsWithToken(s) {
      TokenShape(s);
    }
  }

  lemma {:induction false} ShortHasNoToken(s: string)
    requires |s| < 29
    ensures TokenCount(s) == 0
  {
    if s != "" {
      NoTokenUnless(s);
      ShortHasNoToken(s[1..]);
    }
  }

  lemma SkipChar(c: char, s: string)
    requires c != 'd'
    ensures TokenCount([c] + s) == TokenCount(s)
  {
    assert ([c] + s)[1..] == s;
    NoTokenUnless([c] + s);
  }

  lemma PrefixWithinLine(p: string, a: string, b: string)
    requires '\n' !in p
    ensures p <= a + "\n" + b <==> p <= a
  {
    var t := a + "\n" + b;
    assert t[|a|] == '\n';
    assert forall i | 0 <= i < |a| :: t[i] == a[i];
    assert |p| > |a| ==> p[|a|] != t[|a|];
  }

  lemma NoTokenAcrossLines(a: string, b: string)
    ensures StartsWithToken(a + "\n" + b) <==> StartsWithToken(a)
  {
    hide Token, KindAt;
    forall kind: MarkerKind
      ensures TOKEN_STEM <= a + "\n" + b && KindAt((a + "\n" + b)[|TOKEN_STEM|..]) == Some(kind)
         <==> TOKEN_STEM <= a && KindAt(a[|TOKEN_STEM|..]) == Some(kind)
    {
      TokenHasNoLineEnd(kind);
      PrefixWithinLine(Token(kind), a, b);
      TokenIsPrefix(a, kind);
      TokenIsPrefix(a + "\n" + b, kind);
    }
    assert StartsWithToken(a) ==> KindAt(a[|TOKEN_STEM|..]) == Some(KindAt(a[|TOKEN_STEM|..]).value);
    var t := a + "\n" + b;
    assert StartsWithToken(t) ==> KindAt(t[|TOKEN_STEM|..]) == Some(KindAt(t[|TOKEN_STEM|..]).value);
  }

  lemma TokenHasNoLineEnd(kind: MarkerKind)
    ensures '\n' !in Token(kind) && '\r' !in Token(kind) && '=' !in Token(kind)
  {
    TokenChars(kind);
  }

  /** A token never spans a line end, so the tokens of a text are those of its lines. */
  lemma {:induction false} TokensByLine(a: string, b: string)
    ensures TokenCount(a + "\n" + b) == TokenCount(a) + TokenCount(b)
  {
    if a == "" {
      assert a + "\n" + b == ['\n'] + b;
      SkipChar('\n', b);
    } else {
      assert (a + "\n" + b)[1..] == a[1..] + "\n" + b;
      NoTokenAcrossLines(a, b);
      TokensByLine(a[1..], b);
    }
  }

  ghost function TokenSum(lines: seq<string>): nat {
    if lines == [] then 0 else TokenCount(lines[0]) + TokenSum(lines[1..])
  }

  lemma {:induction false} TokensOfJoin(lines: seq<string>)
    ensures TokenCount(JoinOn(lines, '\n')) == TokenSum(lines)
  {
    if |lines| > 1 {
      TokensByLine(lines[0], JoinOn(lines[1..], '\n'));
      TokensOfJoin(lines[1..]);
    } else if |lines| == 1 {
      assert lines[1..] == [];
    }
  }

  const HEADER_OPEN := "<!-- "

  function Header(kind: MarkerKind): string {
    HEADER_OPEN + Token(kind)
  }

  /** Past its first character a token shows no other token. */
  lemma TokenAppearsOnce(kind: MarkerKind)
    ensures TokenCount(Token(kind)) == 1
  {
    var t := Token(kind);
    TokenChars(kind);
    TokenIsPrefix(t, kind);
    assert StartsWithToken(t);
    assert |KindName(kind)| <= 13;
    assert TOKEN_STEM <= t;
    NoTokenInTail(t, 1);
  }

  lemma {:induction false} NoTokenInTail(t: string, from: nat)
    requires TOKEN_STEM <= t && |t| <= 34 && 1 <= from <= 6
    ensures TokenCount(t[from..]) == 0
    decreases 6 - from
  {
    if |t| - from < 29 {
      ShortHasNoToken(t[from..]);
    } else {
      assert t[from] == TOKEN_STEM[from];
      assert from == 1 || from == 2 || from == 3 || from == 4 || from == 5;
      assert t[from..] == [t[from]] + t[from + 1..];
      SkipChar(t[from], t[from + 1..]);
      NoTokenInTail(t, from + 1);
    }
  }

  lemma OpeningAddsNoToken(text: string)
    ensures TokenCount(HEADER_OPEN + text) == TokenCount(text)
  {
    SkipChar(' ', text);
    SkipChar('-', [' '] + text);
    SkipChar('-', ['-'] + ([' '] + text));
    SkipChar('!', ['-'] + (['-'] + ([' '] + text)));
    SkipChar('<', ['!'] + (['-'] + (['-'] + ([' '] + text))));
    assert HEADER_OPEN + text == ['<'] + (['!'] + (['-'] + (['-'] + ([' '] + text))));
  }

  lemma HeaderHasOneToken(kind: MarkerKind)
    ensures TokenCount(Header(kind)) == 1
  {
    TokenAppearsOnce(kind);
    OpeningAddsNoToken(Token(kind));
  }

  lemma CloserAddsNoToken(text: string)
    ensures TokenCount("-->" + text) == TokenCount(text)
  {
    assert "-->" + text == ['-'] + (['-'] + (['>'] + text));
    SkipChar('>', text);
    SkipChar('-', ['>'] + text);
    SkipChar('-', ['-'] + (['>'] + text));
  }

  // ----- Field lines -----

  datatype Key =
    | BlockKey | ShaKey | StatusKey | ReviewerKey | ManifestKey | RoleKey
    | CanonicalKey | ReasonKey | SupersededByKey | DecisionKey
    | OtherKey(text: string)

  function KeyText(key: Key): string {
    match key
    case BlockKey => "block"
    case ShaKey => "sha"
    case StatusKey => "status"
    case ReviewerKey => "reviewer"
    case ManifestKey => "manifest_sha256"
    case RoleKey => "role"
    case CanonicalKey => "canonical_comment_id"
    case ReasonKey => "reason"
    case SupersededByKey => "superseded_by_sha"
    case DecisionKey => "decision"
    case OtherKey(text) => text
  }

  function KeyNamed(text: string): Key {
    if text == "block" then BlockKey
    else if text == "sha" then ShaKey
    else if text == "status" then StatusKey
    else if text == "reviewer" then ReviewerKey
    else if text == "manifest_sha256" then ManifestKey
    else if text == "role" then RoleKey
    else if text == "canonical_comment_id" then CanonicalKey
    else if text == "reason" then ReasonKey
    else if text == "superseded_by_sha" then SupersededByKey
    else if text == "decision" then DecisionKey
    else OtherKey(text)
  }

  lemma KeyNamedText(key: Key)
    requires !key.OtherKey?
    ensures KeyNamed(KeyText(key)) == key
  {
  }

  predicate IsKey(text: string) {
    |text| > 0 && forall i | 0 <= i < |text| ::
      'a' <= text[i] <= 'z' || '0' <= text[i] <= '9' || text[i] == '_'
  }

  function FieldLine(key: Key, value: string): string {
    KeyText(key) + "=" + value
  }

  /** A legal field line has a key, an equals sign and a value. */
  predicate IsField(line: string) {
    var k := IndexOf(line, '=');
    k + 1 < |line| && IsKey(line[..k])
  }

  function FieldKey(line: string): Key {
    KeyNamed(line[..IndexOf(line, '=')])
  }

  function FieldValue(line: string): string
    requires IsField(line)
  {
    line[IndexOf(line, '=') + 1..]
  }

  predicate DistinctKeys(lines: seq<string>) {
    forall i, j | 0 <= i < j < |lines| :: FieldKey(lines[i]) != FieldKey(lines[j])
  }

  predicate LegalFields(lines: seq<string>) {
    && (forall i | 0 <= i < |lines| :: IsField(lines[i]))
    && DistinctKeys(lines)
  }

  function FieldMap(lines: seq<string>): map<Key, string>
    requires forall i | 0 <= i < |lines| :: IsField(lines[i])
  {
    if lines == [] then map[]
    else
      var last := lines[|lines| - 1];
      FieldMap(lines[..|lines| - 1])[FieldKey(last) := FieldValue(last)]
  }

  lemma {:induction false} FieldMapKeys(lines: seq<string>, key: Key)
    requires forall i | 0 <= i < |lines| :: IsField(lines[i])
    ensures key in FieldMap(lines) <==> exists i :: 0 <= i < |lines| && FieldKey(lines[i]) == key
  {
    hide FieldKey, IsField, FieldValue;
    if lines != [] {
      var n := |lines| - 1;
      var front := lines[..n];
      FieldMapKeys(front, key);
      assert forall i | 0 <= i < n :: front[i] == lines[i];
      assert (exists i :: 0 <= i < |lines| && FieldKey(lines[i]) == key)
        <==> FieldKey(lines[n]) == key || exists i :: 0 <= i < n && FieldKey(lines[i]) == key;
    }
  }

  /** The dictionary a legal list of field lines stands for. */
  lemma {:induction false} FieldMapAt(lines: seq<string>, i: nat)
    requires LegalFields(lines) && i < |lines|
    ensures FieldKey(lines[i]) in FieldMap(lines)
    ensures FieldMap(lines)[FieldKey(lines[i])] == FieldValue(lines[i])
  {
    hide FieldKey, IsField, FieldValue;
    var front := lines[..|lines| - 1];
    if i < |front| {
      FieldMapAt(front, i);
      assert front[i] == lines[i];
    }
  }

  /** Fills the dictionary line by line and fails on the first bad or repeated key. */
  method ParseFields(lines: seq<string>) returns (r: Guarded<map<Key, string>>)
    ensures r.Pass? <==> LegalFields(lines)
    ensures r.Pass? ==> r.value == FieldMap(lines)
  {
    hide FieldKey, IsField, FieldValue;
    var fields: map<Key, string> := map[];
    var i := 0;
    while i < |lines|
      invariant 0 <= i <= |lines|
      invariant LegalFields(lines[..i])
      invariant fields == FieldMap(lines[..i])
    {
      var line := lines[i];
      assert lines[..i + 1] == lines[..i] + [line];
      if !IsField(line) {
        return GuardFailure;
      }
      FieldMapKeys(lines[..i], FieldKey(line));
      if FieldKey(line) in fields {
        return GuardFailure;
      }
      assert forall j | 0 <= j < i :: FieldKey(lines[..i][j]) != FieldKey(line);
      assert lines[..i + 1][..i] == lines[..i];
      fields := fields[FieldKey(line) := FieldValue(line)];
      i := i + 1;
    }
    assert lines[..i] == lines;
    r := Pass(fields);
  }

  lemma FieldLineParts(key: Key, value: string)
    requires !key.OtherKey? && value != ""
    ensures IsField(FieldLine(key, value))
    ensures FieldKey(FieldLine(key, value)) == key && FieldValue(FieldLine(key, value)) == value
    ensures '\n' !in KeyText(key) && '\r' !in KeyText(key)
  {
    KeyTextIsKey(key);
    KeyNamedText(key);
    LineParts(KeyText(key), value);
  }

  lemma KeyTextIsKey(key: Key)
    requires !key.OtherKey?
    ensures IsKey(KeyText(key))
  {
  }

  lemma LineParts(text: string, value: string)
    requires IsKey(text) && value != ""
    ensures IsField(text + "=" + value)
    ensures FieldKey(text + "=" + value) == KeyNamed(text) && FieldValue(text + "=" + value) == value
  {
    hide KeyNamed;
    var line := text + "=" + value;
    assert forall i | 0 <= i < |text| :: line[i] == text[i] && text[i] != '=';
    assert line[|text|] == '=';
    IndexIsFirst(line, '=');
    assert IndexOf(line, '=') == |text|;
    assert line[..|text|] == text;
  }

  lemma LineAsParts(line: string)
    requires IsField(line)
    ensures line == line[..IndexOf(line, '=')] + "=" + FieldValue(line)
  {
    IndexIsFirst(line, '=');
  }

  lemma {:induction false} KeyAddsNoToken(key: string, value: string)
    requires forall i | 0 <= i < |key| :: key[i] != '-' && key[i] != '='
    ensures TokenCount(key + "=" + value) == TokenCount(value)
  {
    var line := key + "=" + value;
    if key == "" {
      assert line == ['='] + value;
      SkipChar('=', value);
    } else {
      assert !StartsWithToken(line) by {
        assert line[|key|] == '=';
        assert |key| > 11 ==> line[11] == key[11];
        if StartsWithToken(line) {
          TokenShape(line);
        }
      }
      assert line[1..] == key[1..] + "=" + value;
      KeyAddsNoToken(key[1..], value);
    }
  }

  /** The tokens of a field line are those of its value. */
  lemma FieldTokens(line: string)
    requires IsField(line)
    ensures TokenCount(line) == TokenCount(FieldValue(line))
  {
    hide TokenCount;
    LineAsParts(line);
    KeyAddsNoToken(line[..IndexOf(line, '=')], FieldValue(line));
  }

  // ----- Grammar -----

  /** The kind a header line names, provided it names nothing else. */
  function HeaderKind(line: string): Option<MarkerKind> {
    var stem := |HEADER_OPEN| + |TOKEN_STEM|;
    if !(HEADER_OPEN + TOKEN_STEM <= line) then None
    else
      var kind := KindAt(line[stem..]);
      if kind.Some? && NameLength(kind.value) == |line| - stem then kind else None
  }

  lemma HeaderKindOf(line: string, kind: MarkerKind)
    ensures HeaderKind(line) == Some(kind) <==> line == Header(kind)
  {
    hide KindAt, KindName;
    var stem := |HEADER_OPEN| + |TOKEN_STEM|;
    assert Header(kind) == (HEADER_OPEN + TOKEN_STEM) + KindName(kind);
    if line == Header(kind) {
      assert line[stem..] == KindName(kind);
      KindAtIsPrefix(line[stem..], kind);
    }
    if HeaderKind(line) == Some(kind) {
      assert line == (HEADER_OPEN + TOKEN_STEM) + line[stem..];
      KindAtIsPrefix(line[stem..], kind);
    }
  }

  const CLOSER := "\n-->"

  /** Where the field block ends: the first line that opens with the closing mark. */
  function FindCloser(s: string): (k: nat)
    ensures k <= |s|
    ensures k < |s| ==> CLOSER <= s[k..]
  {
    if s == "" || CLOSER <= s then 0 else 1 + FindCloser(s[1..])
  }

  /** The marker grammar: a header line, the field lines, and a closing mark. */
  function MatchBlock(body: string): Option<Block> {
    var h := IndexOf(body, '\n');
    var kind := HeaderKind(body[..h]);
    if kind.None? || h == |body| then None
    else
      var rest := body[h + 1..];
      var k := FindCloser(rest);
      if k == |rest| then None
      else Some(Block(kind.value, SplitOn(rest[..k], '\n'), rest[k + |CLOSER|..]))
  }

  /** The text of a block. */
  function Render(block: Block): string {
    Header(block.kind) + "\n" + (JoinOn(block.lines, '\n') + (CLOSER + block.payload))
  }

  lemma HeaderHasNoLineEnd(kind: MarkerKind)
    ensures '\n' !in Header(kind) && '\r' !in Header(kind)
  {
    TokenHasNoLineEnd(kind);
  }

  /** The closing mark cannot begin inside a line. */
  lemma {:induction false} CloserPastLine(line: string, tail: string)
    requires '\n' !in line
    ensures FindCloser(line + tail) == |line| + FindCloser(tail)
  {
    if line == "" {
      assert line + tail == tail;
    } else {
      assert (line + tail)[1..] == line[1..] + tail;
      assert line[0] in line && (line + tail)[0] == line[0] != CLOSER[0];
      CloserPastLine(line[1..], tail);
    }
  }

  lemma CloserSteps(rest: string)
    ensures CLOSER <= rest ==> FindCloser(rest) == 0
    ensures |rest| > 0 && rest[0] != '-' ==> FindCloser(['\n'] + rest) == 1 + FindCloser(rest)
  {
    var text := ['\n'] + rest;
    assert text[1..] == rest;
    assert |rest| > 0 && rest[0] != '-' ==> text[1] != CLOSER[1];
  }

  lemma {:induction false} CloserPastLines(lines: seq<string>, tail: string)
    requires |lines| > 0 && CLOSER <= tail
    requires forall i | 0 <= i < |lines| :: IsField(lines[i]) && '\n' !in lines[i]
    ensures FindCloser(JoinOn(lines, '\n') + tail) == |JoinOn(lines, '\n')|
  {
    hide IsField, FindCloser;
    if |lines| == 1 {
      CloserPastLine(lines[0], tail);
      CloserSteps(tail);
    } else {
      var rest := JoinOn(lines[1..], '\n') + tail;
      CloserPastLines(lines[1..], tail);
      assert JoinOn(lines, '\n') + tail == lines[0] + (['\n'] + rest);
      CloserPastLine(lines[0], ['\n'] + rest);
      FieldOpensNoCloser(lines[1], lines[2..], tail);
      assert [lines[1]] + lines[2..] == lines[1..];
      CloserSteps(rest);
    }
  }

  /** A field line starts with a letter of its key. */
  lemma FieldOpensNoCloser(line: string, others: seq<string>, tail: string)
    requires IsField(line)
    ensures var text := JoinOn([line] + others, '\n') + tail;
            |text| > 0 && text[0] != '-'
  {
    var key := line[..IndexOf(line, '=')];
    assert key[0] == line[0];
    assert JoinOn([line] + others, '\n')[0] == line[0];
  }

  /** How the grammar reads a text whose parts are known. */
  lemma MatchParts(kind: MarkerKind, header: string, fields: string, closing: string)
    requires '\n' !in header && HeaderKind(header) == Some(kind)
    requires CLOSER <= closing && FindCloser(fields + closing) == |fields|
    ensures MatchBlock(header + "\n" + (fields + closing))
         == Some(Block(kind, SplitOn(fields, '\n'), closing[|CLOSER|..]))
  {
    hide HeaderKind, SplitOn, FindCloser;
    var rest := fields + closing;
    var body := header + "\n" + rest;
    FirstLineEnds(header, rest);
    assert body[..|header|] == header && body[|header| + 1..] == rest;
    assert rest[..|fields|] == fields && rest[|fields| + |CLOSER|..] == closing[|CLOSER|..];
  }

  lemma FirstLineEnds(line: string, rest: string)
    requires '\n' !in line
    ensures IndexOf(line + "\n" + rest, '\n') == |line|
  {
    var text := line + "\n" + rest;
    IndexIsFirst(text, '\n');
    assert text[|line|] == '\n';
    assert forall i | 0 <= i < |line| :: text[i] == line[i];
  }

  lemma MatchRender(block: Block)
    requires |block.lines| > 0
    requires forall i | 0 <= i < |block.lines| :: IsField(block.lines[i]) && '\n' !in block.lines[i]
    ensures MatchBlock(Render(block)) == Some(block)
  {
    hide IsField, HeaderKind, Header, SplitOn, JoinOn, MatchBlock, FindCloser;
    HeaderHasNoLineEnd(block.kind);
    HeaderKindOf(Header(block.kind), block.kind);
    CloserPastLines(block.lines, CLOSER + block.payload);
    MatchParts(block.kind, Header(block.kind), JoinOn(block.lines, '\n'), CLOSER + block.payload);
    SplitOfJoin(block.lines);
  }

  lemma SplitOfJoin(lines: seq<string>)
    requires |lines| > 0 && forall i | 0 <= i < |lines| :: '\n' !in lines[i]
    ensures SplitOn(JoinOn(lines, '\n'), '\n') == lines
  {
    var n := |lines| - 1;
    SplitJoin(lines[..n], lines[n], '\n');
    assert lines[..n] + [lines[n]] == lines;
    SplitPrefix(lines[n], "", '\n');
    assert lines[n] + "" == lines[n];
  }

  /** The grammar accepts nothing but rendered blocks. */
  lemma MatchIsRender(body: string)
    requires MatchBlock(body).Some?
    ensures Render(MatchBlock(body).value) == body
    ensures |MatchBlock(body).value.lines| > 0
    ensures forall i | 0 <= i < |MatchBlock(body).value.lines| :: '\n' !in MatchBlock(body).value.lines[i]
  {
    hide HeaderKind, Header, SplitOn, JoinOn;
    var block := MatchBlock(body).value;
    var h := IndexOf(body, '\n');
    HeaderKindOf(body[..h], block.kind);
    IndexIsFirst(body, '\n');
    var rest := body[h + 1..];
    var k := FindCloser(rest);
    assert rest[k..] == CLOSER + block.payload;
    assert rest == rest[..k] + (CLOSER + block.payload);
    JoinSplit(rest[..k], '\n');
    SplitHasNoSeparator(rest[..k], '\n');
    assert body == body[..h] + "\n" + rest;
  }

  // ----- Records -----

  function Get(fields: map<Key, string>, key: Key): Option<string> {
    if key in fields then Some(fields[key]) else None
  }

  function RoleNamed(name: Option<string>): Guarded<Role> {
    if name == Some("build") then Pass(BuildRole)
    else if name == Some("audit") then Pass(AuditRole)
    else GuardFailure
  }

  /** Only a build marker may be PENDING. */
  function StatusNamed(role: Role, name: string): Guarded<Status> {
    if name == "PASS" then Pass(Passed)
    else if name == "FAIL" then Pass(Failed)
    else if name == "PENDING" && role.BuildRole? then Pass(Pending)
    else GuardFailure
  }

  datatype Schema = Schema(role: Role, keys: set<Key>)

  const EQUIVALENT_DUPLICATE := "equivalent-duplicate"
  const HEAD_ADVANCED := "head-advanced"

  function DuplicateKeys(role: Role): set<Key> {
    {BlockKey, ShaKey, StatusKey, RoleKey, CanonicalKey, ReasonKey} + if role.AuditRole? then {ReviewerKey} else {}
  }

  const ARCHIVE_KEYS := {BlockKey, ShaKey, StatusKey, RoleKey, ReviewerKey, ReasonKey, SupersededByKey}

  /** The role a marker speaks for and exactly the keys it must carry. */
  function SchemaOf(kind: MarkerKind, fields: map<Key, string>): Guarded<Schema>
    requires kind != HumanV1
  {
    match kind
    case BuildV1 => Pass(Schema(BuildRole, {BlockKey, ShaKey, StatusKey}))
    case AuditV1 => Pass(Schema(AuditRole, {BlockKey, ShaKey, StatusKey, ReviewerKey}))
    case BuildV2 => Pass(Schema(BuildRole, {BlockKey, ShaKey, StatusKey, ManifestKey}))
    case AuditV2 => Pass(Schema(AuditRole, {BlockKey, ShaKey, StatusKey, ReviewerKey, ManifestKey}))
    case SupersededV1 =>
      var role :- RoleNamed(Get(fields, RoleKey));
      var reason := Get(fields, ReasonKey);
      if reason == Some(EQUIVALENT_DUPLICATE) then
        var _ :- Need(IsDigits(Get(fields, CanonicalKey).GetOr("")));
        Pass(Schema(role, DuplicateKeys(role)))
      else if reason == Some(HEAD_ADVANCED) then
        var _ :- Need(role.AuditRole?);
        Pass(Schema(role, ARCHIVE_KEYS))
      else GuardFailure
  }

  predicate LegalValues(kind: MarkerKind, role: Role, fields: map<Key, string>)
    requires kind != HumanV1 && SchemaOf(kind, fields) == Pass(Schema(role, fields.Keys))
  {
    && fields[BlockKey] != "" && IsFullSha(fields[ShaKey])
    && (kind in {BuildV2, AuditV2} ==> IsSha256(fields[ManifestKey]))
    && (role.AuditRole? ==> fields[ReviewerKey] != "")
    && (SupersededByKey in fields ==>
          IsFullSha(fields[SupersededByKey]) && fields[SupersededByKey] != fields[ShaKey])
  }

  function RecordOf(id: int, kind: MarkerKind, fields: map<Key, string>, payload: string)
    : (r: Guarded<MarkerRecord>)
    requires kind != HumanV1
    ensures r.Pass? ==> (r.value.role.None? <==> kind == SupersededV1)
    ensures r.Pass? ==> r.value.commentId == id && r.value.kind == kind
    ensures r.Pass? ==> r.value.fields == fields && r.value.payload == payload
    ensures r.Pass? ==> IsFullSha(r.value.sha)
  {
    var schema := SchemaOf(kind, fields);
    if schema.GuardFailure? || fields.Keys != schema.value.keys then GuardFailure
    else
      var role := schema.value.role;
      var status := StatusNamed(role, fields[StatusKey]);
      if status.GuardFailure? || !LegalValues(kind, role, fields) then GuardFailure
      else
        var archived := kind == SupersededV1;
        Pass(MarkerRecord(
          id, if archived then None else Some(role), if archived then Some(role) else None,
          kind, fields[BlockKey], fields[ShaKey], status.value, Get(fields, ReviewerKey), payload, fields))
  }

  predicate AllSpace(s: string) {
    forall i | 0 <= i < |s| :: IsSpace(s[i])
  }

  function ReceiptOf(id: int, fields: map<Key, string>, payload: string): Guarded<HumanReceipt> {
    if || !AllSpace(payload) || fields.Keys != {BlockKey, ShaKey, DecisionKey, ManifestKey}
       || !IsFullSha(fields[ShaKey]) || !IsSha256(fields[ManifestKey])
       || (fields[DecisionKey] != "APPROVE" && fields[DecisionKey] != "REJECT")
    then GuardFailure
    else
      Pass(HumanReceipt(id, fields[BlockKey], fields[ShaKey],
                        if fields[DecisionKey] == "APPROVE" then Approve else Reject,
                        fields[ManifestKey]))
  }

  /** What a comment contributes to marker resolution: nothing, or one record. */
  function MarkerOf(comment: Comment): (r: Guarded<Option<MarkerRecord>>)
    ensures r.Pass? && r.value.Some? ==> r.value.value.commentId == comment.id
  {
    var body := ToLf(comment.body);
    if TokenCount(body) == 0 then Pass(None)
    else
      var _ :- Need(TokenCount(body) == 1);
      var block := MatchBlock(body);
      var _ :- Need(block.Some? && LegalFields(block.value.lines));
      var fields := FieldMap(block.value.lines);
      if block.value.kind == HumanV1 then
        var _ :- ReceiptOf(comment.id, fields, block.value.payload);
        Pass(None)
      else
        var record :- RecordOf(comment.id, block.value.kind, fields, NormalizeLines(block.value.payload));
        Pass(Some(record))
  }

  method ParseMarker(comment: Comment) returns (r: Guarded<Option<MarkerRecord>>)
    ensures r == MarkerOf(comment)
  {
    var body := ToLf(comment.body);
    var tokens := TokenCount(body);
    if tokens == 0 {
      return Pass(None);
    }
    var block := MatchBlock(body);
    if tokens != 1 || block.None? {
      return GuardFailure;
    }
    var fields := ParseFields(block.value.lines);
    if fields.GuardFailure? {
      return GuardFailure;
    }
    if block.value.kind == HumanV1 {
      return if ReceiptOf(comment.id, fields.value, block.value.payload).Pass? then Pass(None) else GuardFailure;
    }
    var record := RecordOf(comment.id, block.value.kind, fields.value, NormalizeLines(block.value.payload));
    r := if record.Pass? then Pass(Some(record.value)) else GuardFailure;
  }

  /** Whether `part` occurs in `s`. */
  predicate Contains(s: string, part: string) {
    part <= s || (s != "" && Contains(s[1..], part))
  }

  function HumanReceiptOf(comment: Comment): Guarded<Option<HumanReceipt>> {
    var body := ToLf(comment.body);
    if !Contains(body, Token(HumanV1)) then Pass(None)
    else
      var block := MatchBlock(body);
      var _ :- Need(block.Some? && block.value.kind == HumanV1 && LegalFields(block.value.lines));
      var receipt :- ReceiptOf(comment.id, FieldMap(block.value.lines), block.value.payload);
      Pass(Some(receipt))
  }

  // ----- Round trip -----

  /** One printable line per field, in any order. */
  ghost predicate Prints(lines: seq<string>, fields: map<Key, string>) {
    && |lines| > 0 && LegalFields(lines) && FieldMap(lines) == fields
    && forall i | 0 <= i < |lines| ::
         '\n' !in lines[i] && '\r' !in lines[i] && TokenCount(FieldValue(lines[i])) == 0
  }

  lemma {:induction false} FieldsHaveNoToken(lines: seq<string>)
    requires forall i | 0 <= i < |lines| :: IsField(lines[i]) && TokenCount(FieldValue(lines[i])) == 0
    ensures TokenSum(lines) == 0
  {
    if lines != [] {
      FieldTokens(lines[0]);
      FieldsHaveNoToken(lines[1..]);
    }
  }

  lemma {:induction false} NoReturnInJoin(lines: seq<string>)
    requires forall i | 0 <= i < |lines| :: '\r' !in lines[i]
    ensures '\r' !in JoinOn(lines, '\n')
  {
    if |lines| > 1 {
      NoReturnInJoin(lines[1..]);
    }
  }

  /** A rendered block holds the token of its header and those of its fields and payload. */
  lemma TokensOfRender(block: Block)
    ensures TokenCount(Render(block)) == 1 + TokenSum(block.lines) + TokenCount(block.payload)
  {
    hide TokenCount, Header, JoinOn;
    var text := JoinOn(block.lines, '\n');
    var closing := "-->" + block.payload;
    assert text + (CLOSER + block.payload) == text + "\n" + closing;
    TokensByLine(Header(block.kind), text + "\n" + closing);
    TokensByLine(text, closing);
    TokensOfJoin(block.lines);
    HeaderHasOneToken(block.kind);
    CloserAddsNoToken(block.payload);
  }

  lemma RenderedTokens(block: Block)
    requires forall i | 0 <= i < |block.lines| :: IsField(block.lines[i]) && TokenCount(FieldValue(block.lines[i])) == 0
    requires TokenCount(block.payload) == 0
    ensures TokenCount(Render(block)) == 1
  {
    TokensOfRender(block);
    FieldsHaveNoToken(block.lines);
  }

  lemma RenderedToLf(block: Block)
    requires forall i | 0 <= i < |block.lines| :: '\r' !in block.lines[i]
    ensures ToLf(Render(block)) == Render(block.(payload := ToLf(block.payload)))
  {
    hide Header, JoinOn;
    HeaderHasNoLineEnd(block.kind);
    NoReturnInJoin(block.lines);
    var head := Header(block.kind) + "\n" + JoinOn(block.lines, '\n') + CLOSER;
    assert Render(block) == head + block.payload;
    ToLfAppend(head, block.payload);
    assert Render(block.(payload := ToLf(block.payload))) == head + ToLf(block.payload);
  }

  /** Only the record's payload depends on the payload. */
  lemma PayloadIsFree(record: MarkerRecord, payload: string)
    requires record.kind != HumanV1
    requires RecordOf(record.commentId, record.kind, record.fields, record.payload) == Pass(record)
    ensures RecordOf(record.commentId, record.kind, record.fields, payload) == Pass(record.(payload := payload))
  {
  }

  /** Parsing a printed marker gives back its record, with the payload normalized. */
  lemma ParseInvertsRender(record: MarkerRecord, lines: seq<string>, payload: string)
    requires record.kind != HumanV1
    requires RecordOf(record.commentId, record.kind, record.fields, record.payload) == Pass(record)
    requires Prints(lines, record.fields) && TokenCount(ToLf(payload)) == 0
    ensures MarkerOf(Comment(record.commentId, Render(Block(record.kind, lines, payload))))
         == Pass(Some(record.(payload := NormalizeLines(payload))))
  {
    hide RecordOf, TokenCount, MatchBlock, Render, NormalizeLines, ToLf;
    var block := Block(record.kind, lines, payload);
    var read := block.(payload := ToLf(payload));
    RenderedToLf(block);
    RenderedTokens(read);
    MatchRender(read);
    NormalizeIgnoresReturns(payload);
    PayloadIsFree(record, NormalizeLines(payload));
  }

  lemma {:induction false} ContainsMiddle(before: string, part: string, after: string)
    ensures Contains(before + part + after, part)
  {
    var s := before + part + after;
    if before == "" {
      assert s == part + after;
    } else {
      assert s[1..] == before[1..] + part + after;
      ContainsMiddle(before[1..], part, after);
    }
  }

  lemma RenderNamesItsKind(block: Block)
    ensures Contains(Render(block), Token(block.kind))
  {
    hide JoinOn, Contains;
    var after := "\n" + (JoinOn(block.lines, '\n') + (CLOSER + block.payload));
    assert Render(block) == HEADER_OPEN + Token(block.kind) + after;
    ContainsMiddle(HEADER_OPEN, Token(block.kind), after);
  }

  lemma {:induction false} SpaceToLf(s: string)
    requires AllSpace(s)
    ensures AllSpace(ToLf(s))
  {
    if s != "" {
      assert IsSpace(s[0]);
      SpaceToLf(s[1..]);
      if |s| > 1 {
        SpaceToLf(s[2..]);
      }
    }
  }

  /** A printed human receipt is read back, and is no marker to resolve. */
  lemma ReceiptInvertsRender(receipt: HumanReceipt, fields: map<Key, string>, lines: seq<string>, payload: string)
    requires ReceiptOf(receipt.commentId, fields, payload) == Pass(receipt)
    requires Prints(lines, fields) && TokenCount(ToLf(payload)) == 0
    ensures var comment := Comment(receipt.commentId, Render(Block(HumanV1, lines, payload)));
            HumanReceiptOf(comment) == Pass(Some(receipt)) && MarkerOf(comment) == Pass(None)
  {
    hide TokenCount, MatchBlock, Render, NormalizeLines, ToLf, Contains, Token;
    var block := Block(HumanV1, lines, payload);
    var read := block.(payload := ToLf(payload));
    SpaceToLf(payload);
    RenderedToLf(block);
    RenderedTokens(read);
    MatchRender(read);
    RenderNamesItsKind(read);
  }

  /** Nothing else parses to a record: its text is the print of its fields and payload. */
  lemma ParsedIsRendered(comment: Comment, record: MarkerRecord)
    requires MarkerOf(comment) == Pass(Some(record))
    ensures record.kind != HumanV1
    ensures exists lines, payload ::
              && |lines| > 0 && LegalFields(lines) && FieldMap(lines) == record.fields
              && ToLf(comment.body) == Render(Block(record.kind, lines, payload))
              && record.payload == NormalizeLines(payload)
    ensures RecordOf(comment.id, record.kind, record.fields, record.payload) == Pass(record)
  {
    hide RecordOf, TokenCount, MatchBlock, Render, NormalizeLines, ToLf;
    var body := ToLf(comment.body);
    MatchIsRender(body);
    var block := MatchBlock(body).value;
    assert body == Render(Block(record.kind, block.lines, block.payload));
  }

  /** The order in which fields are printed does not matter. */
  lemma FieldOrderIsFree(a: seq<string>, b: seq<string>)
    requires LegalFields(a) && LegalFields(b) && multiset(a) == multiset(b)
    ensures FieldMap(a) == FieldMap(b)
  {
    forall key: Key
      ensures key in FieldMap(a) ==> key in FieldMap(b) && FieldMap(a)[key] == FieldMap(b)[key]
      ensures key in FieldMap(b) ==> key in FieldMap(a)
    {
      FieldOfPermutation(a, b, key);
      FieldOfPermutation(b, a, key);
    }
  }

  lemma FieldOfPermutation(a: seq<string>, b: seq<string>, key: Key)
    requires LegalFields(a) && LegalFields(b) && multiset(a) == multiset(b)
    ensures key in FieldMap(a) ==> key in FieldMap(b) && FieldMap(a)[key] == FieldMap(b)[key]
  {
    FieldMapKeys(a, key);
    if key in FieldMap(a) {
      var i :| 0 <= i < |a| && FieldKey(a[i]) == key;
      assert a[i] in multiset(b);
      var j :| 0 <= j < |b| && b[j] == a[i];
      FieldMapAt(a, i);
      FieldMapAt(b, j);
    }
  }
}

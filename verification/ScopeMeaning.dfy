/** Which changes a Work Block's declarations accept, spelled out on the lines of its body. */
module ScopeMeaning {
  import opened Wrappers
  import opened Sequences
  import opened GuardText
  import opened Manifest
  import opened WorkBlock
  import opened Scope
  import opened ScopeCheck
  import opened Snapshot

  // ----- Paths -----

  /** `..` stands between two slashes, or at an end of the path. */
  ghost predicate ClimbsOut(path: string) {
    exists a, b :: HasPart(path, a, "..", b)
  }

  ghost predicate HasPart(path: string, a: string, part: string, b: string) {
    && path == a + part + b
    && (a == "" || a[|a| - 1] == '/') && (b == "" || b[0] == '/')
  }

  lemma {:induction false} PartIsSplit(path: string, a: string, part: string, b: string)
    requires HasPart(path, a, part, b) && '/' !in part
    ensures part in SplitOn(path, '/')
    ensures a != "" ==> part in SplitOn(path, '/')[1..]
    decreases |a|
  {
    if a == "" {
      assert path == part + b;
      SplitPrefix(part, b, '/');
      assert part + "" == part;
    } else {
      var rest := a[1..] + part + b;
      assert path == [a[0]] + rest && path[1..] == rest;
      PartIsSplit(rest, a[1..], part, b);
      var tail := SplitOn(rest, '/');
      if a[0] == '/' {
        assert SplitOn(path, '/')[1..] == tail;
      } else {
        assert |a| > 1;
        assert SplitOn(path, '/')[1..] == tail[1..];
      }
    }
  }

  lemma {:induction false} SplitIsPart(path: string, i: nat) returns (a: string, b: string)
    requires i < |SplitOn(path, '/')|
    ensures HasPart(path, a, SplitOn(path, '/')[i], b) && (i == 0 ==> a == "")
    ensures i > 0 ==> a != ""
  {
    if path == "" {
      a, b := "", "";
    } else {
      var rest := SplitOn(path[1..], '/');
      if path[0] == '/' {
        if i == 0 {
          a, b := "", path;
        } else {
          var x, y := SplitIsPart(path[1..], i - 1);
          a, b := "/" + x, y;
          assert path == ['/'] + path[1..];
        }
      } else {
        var x, y := SplitIsPart(path[1..], i);
        b := y;
        if i == 0 {
          a := "";
          assert path == [path[0]] + path[1..];
        } else {
          a := [path[0]] + x;
          assert path == [path[0]] + path[1..];
          assert a[|a| - 1] == x[|x| - 1];
        }
      }
    }
  }

  lemma ClimbingPaths(path: string)
    ensures ClimbsOut(path) <==> ".." in SplitOn(path, '/')
  {
    if ".." in SplitOn(path, '/') {
      var i :| 0 <= i < |SplitOn(path, '/')| && SplitOn(path, '/')[i] == "..";
      var a, b := SplitIsPart(path, i);
      assert HasPart(path, a, "..", b);
    }
    if ClimbsOut(path) {
      var a, b :| HasPart(path, a, "..", b);
      PartIsSplit(path, a, "..", b);
    }
  }

  /** A glob covers all below its directory, any other pattern only itself. */
  ghost predicate Covers(pattern: string, path: string) {
    if exists dir :: pattern == dir + "/**" then exists dir :: pattern == dir + "/**" && dir + "/" <= path
    else path == pattern
  }

  lemma GlobsEnd(pattern: string)
    ensures UsesGlob(pattern) <==> exists dir :: pattern == dir + "/**"
  {
    if UsesGlob(pattern) {
      assert pattern == pattern[..|pattern| - 3] + "/**";
    }
  }

  lemma CoversMeans(pattern: string, path: string)
    ensures Covers(pattern, path) <==> MatchesPath(pattern, path)
  {
    GlobsEnd(pattern);
    if UsesGlob(pattern) {
      var stem := pattern[..|pattern| - 3];
      assert pattern == stem + "/**" && pattern[..|pattern| - 2] == stem + "/";
      forall dir | pattern == dir + "/**" ensures dir == stem {
      }
    }
  }

  predicate Below(dir: string, path: string) {
    dir + "/" <= path
  }

  /** The documents and directories that govern the workflow. */
  predicate Governs(path: string) {
    || path == "AGENTS.md" || path == "docs/development_protocol.md"
    || path == "scripts/check_workflow_guards.py" || path == ".github/CODEOWNERS"
    || Below(".agents/rules", path) || Below(".agents/skills", path)
    || Below(".github/workflows", path) || Below(".github/ISSUE_TEMPLATE", path)
  }

  predicate TestsTheGuard(path: string) {
    path == "tests/unit/test_workflow_guard.py" || path == "tests/unit/test_development_workflow_contract.py"
  }

  lemma GovernsMeans(path: string)
    ensures Governs(path) <==> IsGovernance(path)
    ensures TestsTheGuard(path) <==> path in GUARD_TESTS
  {
    assert ".agents/rules" + "/" == ".agents/rules/" && ".agents/skills" + "/" == ".agents/skills/";
    assert ".github/workflows" + "/" == ".github/workflows/" && ".github/ISSUE_TEMPLATE" + "/" == ".github/ISSUE_TEMPLATE/";
  }

  // ----- Declarations -----

  predicate IsDigest(value: string) {
    |value| == 64 && forall c | c in value :: '0' <= c <= '9' || 'a' <= c <= 'f'
  }

  /** What may be declared under each heading. */
  ghost predicate MayDeclare(part: Part, path: string, value: string) {
    && path != "" && path[0] != '/' && !ClimbsOut(path)
    && match part
       case Allowed => (value == "nuevo" || IsDigest(value)) && !exists dir :: path == dir + "/**"
       case Checkpoint => IsDigest(value) && !exists dir :: path == dir + "/**"
       case Immutable => IsDigest(value) && !exists dir :: path == dir + "/**"
       case Denied => value == "deny"
  }

  lemma DeclarableMeans(part: Part, path: string, value: string)
    ensures MayDeclare(part, path, value) <==> LegalEntry(part, Entry(path, value))
  {
    hide UsesGlob, ClimbsOut, SplitOn;
    ClimbingPaths(path);
    GlobsEnd(path);
    if |value| == 64 {
      assert forall i | 0 <= i < |value| :: value[i] in value;
    }
  }

  ghost predicate LegalBody(lines: seq<Line>) {
    && (forall i, j, section | 0 <= i < j < |lines| && lines[i] == Heading(section) :: lines[j] != Heading(section))
    && (forall i, part | 0 <= i < |lines| && Declares(lines, i, part) :: lines[i] != BadEntry)
    && (forall part, path, value | Declared(lines, part, path, value) :: MayDeclare(part, path, value))
    && forall part, path, a, b | Declared(lines, part, path, a) && Declared(lines, part, path, b) :: a == b
  }

  lemma HeadingsMean(lines: seq<Line>)
    ensures HeadingsDistinct(lines, |lines|)
       <==> forall i, j, section | 0 <= i < j < |lines| && lines[i] == Heading(section) :: lines[j] != Heading(section)
  {
    if HeadingsDistinct(lines, |lines|) {
      forall i, j, section | 0 <= i < j < |lines| && lines[i] == Heading(section) ensures lines[j] != Heading(section) {
      }
    } else {
      var i, j :| 0 <= i < j < |lines| && lines[i].Heading? && lines[j].Heading? && lines[i] == lines[j];
      assert lines[i] == Heading(lines[i].section);
    }
  }

  lemma PartMeans(lines: seq<Line>, part: Part)
    ensures PartLegal(lines, part) <==>
              && (forall i | 0 <= i < |lines| && Declares(lines, i, part) :: lines[i] != BadEntry)
              && (forall path, value | Declared(lines, part, path, value) :: MayDeclare(part, path, value))
              && forall path, a, b | Declared(lines, part, path, a) && Declared(lines, part, path, b) :: a == b
  {
    hide Declares, MayDeclare, LegalEntry;
    forall path, value ensures MayDeclare(part, path, value) <==> LegalEntry(part, Entry(path, value)) {
      DeclarableMeans(part, path, value);
    }
    LegalLines(lines, part);
    SameValues(lines, part);
  }

  lemma LegalLines(lines: seq<Line>, part: Part)
    ensures (forall i | 0 <= i < |lines| && Declares(lines, i, part) :: LegalEntry(part, lines[i])) <==>
              && (forall i | 0 <= i < |lines| && Declares(lines, i, part) :: lines[i] != BadEntry)
              && forall path, value | Declared(lines, part, path, value) :: LegalEntry(part, Entry(path, value))
  {
    hide Declares;
    if (forall i | 0 <= i < |lines| && Declares(lines, i, part) :: lines[i] != BadEntry)
       && forall path, value | Declared(lines, part, path, value) :: LegalEntry(part, Entry(path, value))
    {
      forall i | 0 <= i < |lines| && Declares(lines, i, part) ensures LegalEntry(part, lines[i]) {
        if lines[i].Entry? {
          assert Declared(lines, part, lines[i].path, lines[i].value);
        }
      }
    }
  }

  lemma SameValues(lines: seq<Line>, part: Part)
    ensures (forall i, j | 0 <= i < j < |lines| && Declares(lines, i, part) && Declares(lines, j, part) ::
               lines[i].Entry? && lines[j].Entry? && lines[i].path == lines[j].path ==> lines[i].value == lines[j].value)
       <==> forall path, a, b | Declared(lines, part, path, a) && Declared(lines, part, path, b) :: a == b
  {
    hide Declares;
    if forall path, a, b | Declared(lines, part, path, a) && Declared(lines, part, path, b) :: a == b {
      forall i, j | 0 <= i < j < |lines| && Declares(lines, i, part) && Declares(lines, j, part)
        ensures lines[i].Entry? && lines[j].Entry? && lines[i].path == lines[j].path ==> lines[i].value == lines[j].value
      {
        if lines[i].Entry? && lines[j].Entry? && lines[i].path == lines[j].path {
          assert Declared(lines, part, lines[i].path, lines[i].value);
          assert Declared(lines, part, lines[i].path, lines[j].value);
        }
      }
    } else {
      var path, a, b :| Declared(lines, part, path, a) && Declared(lines, part, path, b) && a != b;
      var i :| 0 <= i < |lines| && lines[i] == Entry(path, a) && Declares(lines, i, part);
      var j :| 0 <= j < |lines| && lines[j] == Entry(path, b) && Declares(lines, j, part);
      assert i < j || j < i;
    }
  }

  lemma LegalBodyMeans(lines: seq<Line>)
    ensures LegalBody(lines) <==> WellDeclared(lines)
  {
    hide Declares, MayDeclare, PartLegal, HeadingsDistinct, Declared;
    HeadingsMean(lines);
    if WellDeclared(lines) {
      forall i, part | 0 <= i < |lines| && Declares(lines, i, part) ensures lines[i] != BadEntry {
        PartMeans(lines, part);
      }
      forall part, path, value | Declared(lines, part, path, value) ensures MayDeclare(part, path, value) {
        PartMeans(lines, part);
      }
      forall part, path, a, b | Declared(lines, part, path, a) && Declared(lines, part, path, b) ensures a == b {
        PartMeans(lines, part);
      }
    }
    if LegalBody(lines) {
      forall part ensures PartLegal(lines, part) {
        PartMeans(lines, part);
      }
    }
  }

  // ----- Acceptance -----

  ghost predicate IsDeclared(lines: seq<Line>, part: Part, path: string) {
    exists value :: Declared(lines, part, path, value)
  }

  ghost predicate Forbidden(lines: seq<Line>, path: string) {
    || IsDeclared(lines, Immutable, path)
    || exists pattern :: IsDeclared(lines, Denied, pattern) && Covers(pattern, path)
  }

  /** One change against the declarations. */
  ghost predicate Admissible(lines: seq<Line>, w: WorkBlock, c: Change) {
    && (c.status == Added || c.status == Modified || c.status == Removed || c.status == Renamed)
    && !Forbidden(lines, c.path)
    && (w.risk == R3 ==> IsDeclared(lines, Allowed, c.path))
    && forall value | Declared(lines, Allowed, c.path, value) ::
         if value == "nuevo" then c.status == Added else c.status == Modified || c.status == Removed
  }

  /** Who may change what: governance only by its own writer, who changes nothing else. */
  ghost predicate RightWriter(w: WorkBlock, changes: seq<Change>, standing: bool) {
    && (w.writer == Governance ==>
          && w.risk == R3 && w.profile == Critical && w.route == NoEffect && (w.policy == Human || standing)
          && forall c | c in changes :: Governs(c.path) || TestsTheGuard(c.path))
    && (w.writer != Governance ==> forall c | c in changes :: !Governs(c.path))
    && (w.route == NoEffect ==>
          forall c | c in changes ::
            c.path != "docs/basic_functional_release_plan.md" && c.path != "docs/product_roadmap.md")
  }

  ghost predicate Acceptable(lines: seq<Line>, w: WorkBlock, evidence: ScopeEvidence, standing: bool) {
    && LegalBody(lines)
    && (w.risk == R3 ==> exists path :: IsDeclared(lines, Allowed, path))
    && (forall path | IsDeclared(lines, Allowed, path) :: !Forbidden(lines, path))
    && (forall path, digest | Declared(lines, Checkpoint, path, digest) ::
          path in evidence.checkpoint && evidence.checkpoint[path] == digest)
    && (forall path, digest | Declared(lines, Immutable, path, digest) ::
          path in evidence.immutable && evidence.immutable[path] == digest)
    && (forall i, j | 0 <= i < j < |evidence.changes| :: evidence.changes[i].path != evidence.changes[j].path)
    && (forall c | c in evidence.changes :: Admissible(lines, w, c))
    && RightWriter(w, evidence.changes, standing)
  }

  /** The parsed tables hold exactly what is declared. */
  lemma TablesHold(lines: seq<Line>, scope: DeclaredScope)
    requires Describes(scope, lines)
    ensures forall path, value :: Declared(lines, Allowed, path, value) <==> path in scope.allowlist && scope.allowlist[path] == value
    ensures forall path, value :: Declared(lines, Checkpoint, path, value) <==> path in scope.checkpoint && scope.checkpoint[path] == value
    ensures forall path, value :: Declared(lines, Immutable, path, value) <==> path in scope.immutable && scope.immutable[path] == value
    ensures forall path, value :: Declared(lines, Denied, path, value) <==> path in scope.prohibited && scope.prohibited[path] == value
  {
    hide Declared;
    assert Holds(Table(scope, Allowed), lines, Allowed) && Holds(Table(scope, Checkpoint), lines, Checkpoint);
    assert Holds(Table(scope, Immutable), lines, Immutable) && Holds(Table(scope, Denied), lines, Denied);
  }

  lemma DeclaredPaths(lines: seq<Line>, scope: DeclaredScope)
    requires Describes(scope, lines)
    ensures forall path :: IsDeclared(lines, Allowed, path) <==> path in scope.allowlist
    ensures forall path :: IsDeclared(lines, Immutable, path) <==> path in scope.immutable
    ensures forall path :: IsDeclared(lines, Denied, path) <==> path in scope.prohibited
  {
    hide Declared, Describes;
    TablesHold(lines, scope);
    forall path | path in scope.allowlist ensures IsDeclared(lines, Allowed, path) {
      assert Declared(lines, Allowed, path, scope.allowlist[path]);
    }
    forall path | path in scope.immutable ensures IsDeclared(lines, Immutable, path) {
      assert Declared(lines, Immutable, path, scope.immutable[path]);
    }
    forall path | path in scope.prohibited ensures IsDeclared(lines, Denied, path) {
      assert Declared(lines, Denied, path, scope.prohibited[path]);
    }
  }

  lemma ForbiddenMeans(lines: seq<Line>, scope: DeclaredScope, path: string)
    requires Describes(scope, lines)
    ensures Forbidden(lines, path) <==> IsProhibited(scope, path) || path in scope.immutable
  {
    hide Describes, IsDeclared, Covers, MatchesPath;
    DeclaredPaths(lines, scope);
    forall pattern ensures Covers(pattern, path) <==> MatchesPath(pattern, path) {
      CoversMeans(pattern, path);
    }
  }

  lemma AdmissibleMeans(lines: seq<Line>, scope: DeclaredScope, w: WorkBlock, c: Change)
    requires Describes(scope, lines)
    ensures Admissible(lines, w, c) <==> ChangeFits(w, scope, c)
  {
    hide Describes, IsDeclared, Forbidden, IsProhibited, Declared;
    DeclaredPaths(lines, scope);
    TablesHold(lines, scope);
    ForbiddenMeans(lines, scope, c.path);
    if c.path in scope.allowlist {
      assert Declared(lines, Allowed, c.path, scope.allowlist[c.path]);
    }
  }

  lemma WriterMeans(w: WorkBlock, changes: seq<Change>, standing: bool)
    ensures RightWriter(w, changes, standing) <==> WriterFits(w, Paths(changes), standing)
  {
    hide Governs, IsGovernance, TestsTheGuard;
    var paths := Paths(changes);
    forall path ensures Governs(path) <==> IsGovernance(path) {
      GovernsMeans(path);
    }
    forall path ensures TestsTheGuard(path) <==> path in GUARD_TESTS {
      GovernsMeans(path);
    }
    assert forall i | 0 <= i < |paths| :: paths[i] == changes[i].path && changes[i] in changes;
    assert forall path :: path in ROUTE_DOCUMENTS <==>
        path == "docs/basic_functional_release_plan.md" || path == "docs/product_roadmap.md";
    forall c | c in changes ensures exists i :: 0 <= i < |paths| && changes[i] == c && paths[i] == c.path {
    }
  }

  lemma SoundMeans(lines: seq<Line>, scope: DeclaredScope, w: WorkBlock)
    requires Describes(scope, lines)
    ensures ScopeIsSound(w, scope) <==>
              && (w.risk == R3 ==> exists path :: IsDeclared(lines, Allowed, path))
              && forall path | IsDeclared(lines, Allowed, path) :: !Forbidden(lines, path)
  {
    hide Describes, IsDeclared, Forbidden, IsProhibited, Declared;
    DeclaredPaths(lines, scope);
    forall path ensures Forbidden(lines, path) <==> IsProhibited(scope, path) || path in scope.immutable {
      ForbiddenMeans(lines, scope, path);
    }
    if scope.allowlist != map[] {
      var path :| path in scope.allowlist;
      assert IsDeclared(lines, Allowed, path);
    }
  }

  lemma DigestsMean(lines: seq<Line>, part: Part, declared: map<string, string>, observed: map<string, string>)
    requires forall path, value :: Declared(lines, part, path, value) <==> path in declared && declared[path] == value
    ensures DigestsAgree(declared, observed) <==>
              forall path, digest | Declared(lines, part, path, digest) :: path in observed && observed[path] == digest
  {
    hide Declared;
    if forall path, digest | Declared(lines, part, path, digest) :: path in observed && observed[path] == digest {
      forall path | path in declared ensures path in observed && observed[path] == declared[path] {
        assert Declared(lines, part, path, declared[path]);
      }
    }
  }

  lemma ChangesMean(lines: seq<Line>, scope: DeclaredScope, w: WorkBlock, changes: seq<Change>)
    requires Describes(scope, lines)
    ensures (forall c | c in changes :: Admissible(lines, w, c))
       <==> forall i | 0 <= i < |changes| :: ChangeFits(w, scope, changes[i])
    ensures Distinct(Paths(changes)) <==> forall i, j | 0 <= i < j < |changes| :: changes[i].path != changes[j].path
  {
    hide Describes, Admissible, ChangeFits;
    forall c ensures Admissible(lines, w, c) <==> ChangeFits(w, scope, c) {
      AdmissibleMeans(lines, scope, w, c);
    }
    assert forall i | 0 <= i < |changes| :: Paths(changes)[i] == changes[i].path && changes[i] in changes;
  }

  lemma InScopeMeans(lines: seq<Line>, scope: DeclaredScope, w: WorkBlock, evidence: ScopeEvidence, standing: bool)
    requires Describes(scope, lines) && LegalBody(lines)
    ensures InScope(w, scope, evidence, standing) <==> Acceptable(lines, w, evidence, standing)
  {
    hide Describes, LegalBody, ScopeIsSound, DigestsAgree, ChangeFits, Admissible, RightWriter, WriterFits, IsDeclared,
         Forbidden, Declared;
    SoundMeans(lines, scope, w);
    TablesHold(lines, scope);
    DigestsMean(lines, Checkpoint, scope.checkpoint, evidence.checkpoint);
    DigestsMean(lines, Immutable, scope.immutable, evidence.immutable);
    ChangesMean(lines, scope, w, evidence.changes);
    WriterMeans(w, evidence.changes, standing);
  }

  lemma TableOfPart(lines: seq<Line>, part: Part) returns (table: map<string, string>)
    requires PartLegal(lines, part)
    ensures Holds(table, lines, part)
  {
    hide Declares;
    table := map i | 0 <= i < |lines| && lines[i].Entry? && Declares(lines, i, part) :: lines[i].path := lines[i].value;
    forall path, value ensures Declared(lines, part, path, value) <==> path in table && table[path] == value {
      if Declared(lines, part, path, value) {
        var i :| 0 <= i < |lines| && lines[i] == Entry(path, value) && Declares(lines, i, part);
        assert lines[i].path == path;
      }
      if path in table && table[path] == value {
        var i :| 0 <= i < |lines| && lines[i].Entry? && Declares(lines, i, part) && lines[i].path == path
                 && lines[i].value == value;
        assert lines[i] == Entry(path, value);
      }
    }
  }

  lemma DescribedScope(lines: seq<Line>) returns (scope: DeclaredScope)
    requires WellDeclared(lines)
    ensures Describes(scope, lines)
  {
    hide PartLegal, Holds, HeadingsDistinct;
    var allowed := TableOfPart(lines, Allowed);
    var checkpoint := TableOfPart(lines, Checkpoint);
    var immutable := TableOfPart(lines, Immutable);
    var denied := TableOfPart(lines, Denied);
    scope := DeclaredScope(allowed, checkpoint, immutable, denied);
    forall part ensures Holds(Table(scope, part), lines, part) {
      match part {
        case Allowed =>
        case Checkpoint =>
        case Immutable =>
        case Denied =>
      }
    }
  }

  /**
   * A scope is accepted if and only if its declarations are well formed and every change is admissible:
   * no denied pattern covers it, it is not immutable, its status fits its declaration, every declared
   * digest was observed, and the writer may make it.
   */
  lemma ScopeIsExact(lines: seq<Line>, w: WorkBlock, evidence: ScopeEvidence, standing: bool)
    ensures ScopeAccepted(lines, w, evidence, standing) <==> Acceptable(lines, w, evidence, standing)
  {
    hide Describes, WellDeclared, LegalBody, InScope;
    LegalBodyMeans(lines);
    if WellDeclared(lines) {
      var scope := DescribedScope(lines);
      InScopeMeans(lines, scope, w, evidence, standing);
      if ScopeAccepted(lines, w, evidence, standing) {
        var other :| Describes(other, lines) && InScope(w, other, evidence, standing);
        ScopeDescribedOnce(other, scope, lines);
      }
    }
  }
}

/** The path scope a Work Block declares, read off its headings. */
module Scope {
  import opened Wrappers
  import opened Sequences
  import opened GuardText

  datatype Section = Allowlist | Protected | Prohibited

  /** Protected entries count only under one of two sub-headings. */
  datatype Part = Allowed | Checkpoint | Immutable | Denied

  /** A line of the body, by the role it can play in the declarations. */
  datatype Line =
    | Heading(section: Section)
    | CheckpointHeading
    | ImmutableHeading
    | OtherHeading                           // any other second-level heading
    | Entry(path: string, value: string)     // a declaration that has the literal entry form
    | BadEntry                               // a list item that has not
    | Prose

  datatype DeclaredScope = DeclaredScope(
    allowlist: map<string, string>, checkpoint: map<string, string>,
    immutable: map<string, string>, prohibited: map<string, string>)

  const NEW_FILE := "nuevo"
  const DENY := "deny"

  // ----- What the headings mean -----

  predicate Divides(line: Line) {
    line.Heading? || line.OtherHeading?
  }

  /** Line `h` opens the section that line `i` stands in. */
  ghost predicate Opens(lines: seq<Line>, h: int, i: int, section: Section) {
    && 0 <= h < i <= |lines| && lines[h] == Heading(section)
    && forall k | h < k < i :: !Divides(lines[k])
  }

  ghost predicate InSection(lines: seq<Line>, i: int, section: Section) {
    exists h :: Opens(lines, h, i, section)
  }

  /** The last sub-heading between the section heading and line `i` is the one at `k`. */
  ghost predicate Under(lines: seq<Line>, k: int, i: int) {
    && 0 <= k < i <= |lines| && (lines[k].CheckpointHeading? || lines[k].ImmutableHeading?)
    && forall j | k < j < i :: !Divides(lines[j]) && !lines[j].CheckpointHeading? && !lines[j].ImmutableHeading?
  }

  /** Line `i` is declared under `part`. */
  ghost predicate Declares(lines: seq<Line>, i: int, part: Part) {
    match part
    case Allowed => InSection(lines, i, Allowlist)
    case Denied => InSection(lines, i, Prohibited)
    case Checkpoint => InSection(lines, i, Protected) && exists k :: Under(lines, k, i) && lines[k].CheckpointHeading?
    case Immutable => InSection(lines, i, Protected) && exists k :: Under(lines, k, i) && lines[k].ImmutableHeading?
  }

  // ----- The state machine over lines -----

  datatype Place = Outside | In(section: Section, kind: Option<Part>)

  function Next(at: Place, line: Line): Place {
    match line
    case Heading(section) => In(section, None)
    case OtherHeading => Outside
    case CheckpointHeading => if at.In? && at.section.Protected? then In(Protected, Some(Checkpoint)) else at
    case ImmutableHeading => if at.In? && at.section.Protected? then In(Protected, Some(Immutable)) else at
    case _ => at
  }

  function PlaceAt(lines: seq<Line>, n: nat): Place
    requires n <= |lines|
  {
    if n == 0 then Outside else Next(PlaceAt(lines, n - 1), lines[n - 1])
  }

  function PartAt(at: Place): Option<Part> {
    if at.Outside? then None
    else match at.section
         case Allowlist => Some(Allowed)
         case Prohibited => Some(Denied)
         case Protected => at.kind
  }

  lemma SectionContinues(lines: seq<Line>, n: nat, section: Section)
    requires 0 < n <= |lines| && !Divides(lines[n - 1])
    ensures InSection(lines, n, section) <==> InSection(lines, n - 1, section)
  {
    if InSection(lines, n, section) {
      var h :| Opens(lines, h, n, section);
      assert h != n - 1;
      assert Opens(lines, h, n - 1, section);
    }
    if InSection(lines, n - 1, section) {
      var h :| Opens(lines, h, n - 1, section);
      assert Opens(lines, h, n, section);
    }
  }

  lemma {:induction false} PlaceMeansSection(lines: seq<Line>, n: nat, section: Section)
    requires n <= |lines|
    ensures PlaceAt(lines, n).In? && PlaceAt(lines, n).section == section <==> InSection(lines, n, section)
  {
    if n > 0 {
      PlaceMeansSection(lines, n - 1, section);
      var line := lines[n - 1];
      if line == Heading(section) {
        assert Opens(lines, n - 1, n, section);
      } else if Divides(line) {
        assert forall h | 0 <= h < n && lines[h] == Heading(section) :: h < n - 1;
      } else {
        SectionContinues(lines, n, section);
      }
    }
  }

  ghost predicate KindIs(at: Place, checkpoint: bool) {
    at.In? && at.section.Protected? && at.kind == Some(if checkpoint then Checkpoint else Immutable)
  }

  ghost predicate UnderKind(lines: seq<Line>, n: int, checkpoint: bool) {
    exists k :: Under(lines, k, n) && lines[k].CheckpointHeading? == checkpoint
  }

  lemma {:induction false} PlaceMeansKind(lines: seq<Line>, n: nat, checkpoint: bool)
    requires n <= |lines|
    ensures KindIs(PlaceAt(lines, n), checkpoint) <==>
              InSection(lines, n, Protected) && UnderKind(lines, n, checkpoint)
  {
    PlaceMeansSection(lines, n, Protected);
    if n > 0 {
      PlaceMeansKind(lines, n - 1, checkpoint);
      PlaceMeansSection(lines, n - 1, Protected);
      var line := lines[n - 1];
      if line.CheckpointHeading? || line.ImmutableHeading? {
        assert Under(lines, n - 1, n);
        forall k | Under(lines, k, n) ensures k == n - 1 {
        }
      } else if Divides(line) {
        forall k ensures !Under(lines, k, n) {
        }
      } else {
        forall k ensures Under(lines, k, n) <==> Under(lines, k, n - 1) {
        }
      }
    }
  }

  /** The running state says exactly under which part a line stands. */
  lemma PlaceMeansPart(lines: seq<Line>, n: nat, part: Part)
    requires n <= |lines|
    ensures PartAt(PlaceAt(lines, n)) == Some(part) <==> Declares(lines, n, part)
  {
    PlaceMeansSection(lines, n, Allowlist);
    PlaceMeansSection(lines, n, Prohibited);
    PlaceMeansSection(lines, n, Protected);
    PlaceMeansKind(lines, n, true);
    PlaceMeansKind(lines, n, false);
    assert UnderKind(lines, n, true) <==> exists k :: Under(lines, k, n) && lines[k].CheckpointHeading?;
    assert UnderKind(lines, n, false) <==> exists k :: Under(lines, k, n) && lines[k].ImmutableHeading?;
    KindOnlyProtected(lines, n);
  }

  lemma {:induction false} KindOnlyProtected(lines: seq<Line>, n: nat)
    requires n <= |lines|
    ensures var at := PlaceAt(lines, n);
            at.In? && at.kind.Some? ==> at.section.Protected? && (at.kind.value.Checkpoint? || at.kind.value.Immutable?)
  {
    if n > 0 {
      KindOnlyProtected(lines, n - 1);
    }
  }

  // ----- Legal declarations -----

  predicate UsesGlob(path: string) {
    |path| >= 3 && path[|path| - 3..] == "/**"
  }

  /** Relative, and never climbing out. */
  predicate IsScopePath(path: string) {
    && path != "" && path[0] != '/' && ".." !in SplitOn(path, '/')
  }

  predicate LegalValue(part: Part, value: string) {
    match part
    case Allowed => value == NEW_FILE || IsSha256(value)
    case Checkpoint => IsSha256(value)
    case Immutable => IsSha256(value)
    case Denied => value == DENY
  }

  predicate LegalEntry(part: Part, line: Line) {
    && !line.BadEntry?
    && (line.Entry? ==>
          IsScopePath(line.path) && LegalValue(part, line.value) && (UsesGlob(line.path) ==> part.Denied?))
  }

  /** Nothing declared under `part` is malformed, and no path has two values. */
  ghost predicate PartLegal(lines: seq<Line>, part: Part) {
    && (forall i | 0 <= i < |lines| && Declares(lines, i, part) :: LegalEntry(part, lines[i]))
    && forall i, j | 0 <= i < j < |lines| && Declares(lines, i, part) && Declares(lines, j, part) ::
         lines[i].Entry? && lines[j].Entry? && lines[i].path == lines[j].path ==> lines[i].value == lines[j].value
  }

  ghost predicate HeadingsDistinct(lines: seq<Line>, n: nat)
    requires n <= |lines|
  {
    forall i, j | 0 <= i < j < n && lines[i].Heading? && lines[j].Heading? :: lines[i] != lines[j]
  }

  ghost predicate WellDeclared(lines: seq<Line>) {
    HeadingsDistinct(lines, |lines|) && forall part :: PartLegal(lines, part)
  }

  ghost predicate Declared(lines: seq<Line>, part: Part, path: string, value: string) {
    exists i :: 0 <= i < |lines| && lines[i] == Entry(path, value) && Declares(lines, i, part)
  }

  /** `table` maps the paths declared under `part` to their values, and nothing else. */
  ghost predicate Holds(table: map<string, string>, lines: seq<Line>, part: Part) {
    forall path, value :: Declared(lines, part, path, value) <==> path in table && table[path] == value
  }

  function Table(scope: DeclaredScope, part: Part): map<string, string> {
    match part
    case Allowed => scope.allowlist
    case Checkpoint => scope.checkpoint
    case Immutable => scope.immutable
    case Denied => scope.prohibited
  }

  ghost predicate Describes(scope: DeclaredScope, lines: seq<Line>) {
    forall part :: Holds(Table(scope, part), lines, part)
  }

  // ----- The parser -----

  predicate IsBody(line: Line) {
    line.Entry? || line.BadEntry? || line.Prose?
  }

  /** The body lines among the first `n` that stand under `part`. */
  function LinesOf(lines: seq<Line>, n: nat, part: Part): seq<Line>
    requires n <= |lines|
  {
    if n == 0 then []
    else
      var line := lines[n - 1];
      LinesOf(lines, n - 1, part)
      + if IsBody(line) && PartAt(PlaceAt(lines, n - 1)) == Some(part) then [line] else []
  }

  lemma {:induction false} LinesOfMeans(lines: seq<Line>, n: nat, part: Part, line: Line)
    requires n <= |lines|
    ensures line in LinesOf(lines, n, part)
       <==> IsBody(line) && exists i :: 0 <= i < n && lines[i] == line && Declares(lines, i, part)
  {
    hide Declares, PlaceAt, PartAt;
    if n > 0 {
      LinesOfMeans(lines, n - 1, part, line);
      PlaceMeansPart(lines, n - 1, part);
      assert (exists i :: 0 <= i < n && lines[i] == line && Declares(lines, i, part))
        <==> (lines[n - 1] == line && Declares(lines, n - 1, part))
             || exists i :: 0 <= i < n - 1 && lines[i] == line && Declares(lines, i, part);
    }
  }

  ghost predicate AllLegal(part: Part, ls: seq<Line>) {
    forall line | line in ls :: LegalEntry(part, line)
  }

  ghost predicate Consistent(ls: seq<Line>) {
    forall a, b | a in ls && b in ls :: a.Entry? && b.Entry? && a.path == b.path ==> a.value == b.value
  }

  /** Reads the entries of one part; a repeated path must repeat its value. */
  method Entries(part: Part, ls: seq<Line>) returns (r: Guarded<map<string, string>>)
    ensures r.Pass? <==> AllLegal(part, ls) && Consistent(ls)
    ensures r.Pass? ==> forall path, value :: path in r.value && r.value[path] == value <==> Entry(path, value) in ls
  {
    hide LegalEntry;
    var result: map<string, string> := map[];
    for i := 0 to |ls|
      invariant AllLegal(part, ls[..i]) && Consistent(ls[..i])
      invariant forall path, value :: path in result && result[path] == value <==> Entry(path, value) in ls[..i]
    {
      var line := ls[i];
      assert ls[..i + 1] == ls[..i] + [line] && line in ls;
      if !LegalEntry(part, line) {
        return GuardFailure;
      }
      if line.Entry? {
        if line.path in result && result[line.path] != line.value {
          assert Entry(line.path, result[line.path]) in ls[..i];
          return GuardFailure;
        }
        result := result[line.path := line.value];
      }
    }
    assert ls[..|ls|] == ls;
    r := Pass(result);
  }

  lemma FourParts(lines: seq<Line>)
    ensures (forall part :: PartLegal(lines, part)) <==>
              && PartLegal(lines, Allowed) && PartLegal(lines, Checkpoint)
              && PartLegal(lines, Immutable) && PartLegal(lines, Denied)
  {
    hide PartLegal;
    forall part: Part
      ensures PartLegal(lines, part)
           == (match part case Allowed => PartLegal(lines, Allowed) case Checkpoint => PartLegal(lines, Checkpoint)
                          case Immutable => PartLegal(lines, Immutable) case Denied => PartLegal(lines, Denied))
    {
    }
  }

  /** One pass over the body collects the lines of every part. */
  method CollectSections(lines: seq<Line>) returns (r: Guarded<map<Part, seq<Line>>>)
    ensures r.Pass? <==> HeadingsDistinct(lines, |lines|)
    ensures r.Pass? ==> forall part :: part in r.value && r.value[part] == LinesOf(lines, |lines|, part)
  {
    var sections: map<Part, seq<Line>> := map[Allowed := [], Checkpoint := [], Immutable := [], Denied := []];
    var seen: set<Section> := {};
    var at := Outside;
    forall part: Part ensures part in sections && sections[part] == [] {
      assert part.Allowed? || part.Checkpoint? || part.Immutable? || part.Denied?;
    }
    for i := 0 to |lines|
      invariant HeadingsDistinct(lines, i)
      invariant forall section :: section in seen <==> exists h :: 0 <= h < i && lines[h] == Heading(section)
      invariant at == PlaceAt(lines, i)
      invariant forall part :: part in sections && sections[part] == LinesOf(lines, i, part)
    {
      var line := lines[i];
      if line.Heading? {
        if line.section in seen {
          return GuardFailure;
        }
        seen := seen + {line.section};
      }
      if IsBody(line) && PartAt(at).Some? {
        var part := PartAt(at).value;
        sections := sections[part := sections[part] + [line]];
      }
      at := Next(at, line);
    }
    r := Pass(sections);
  }

  ghost predicate StandsUnder(lines: seq<Line>, line: Line, part: Part) {
    IsBody(line) && exists i :: 0 <= i < |lines| && lines[i] == line && Declares(lines, i, part)
  }

  lemma PartsMeanDeclarations(lines: seq<Line>, part: Part)
    ensures PartLegal(lines, part)
       <==> AllLegal(part, LinesOf(lines, |lines|, part)) && Consistent(LinesOf(lines, |lines|, part))
  {
    hide Declares, LinesOf, LegalEntry;
    var ls := LinesOf(lines, |lines|, part);
    forall line ensures line in ls <==> StandsUnder(lines, line, part) {
      LinesOfMeans(lines, |lines|, part, line);
    }
    LegalMeans(lines, part, ls);
    ConsistentMeans(lines, part, ls);
  }

  lemma LegalMeans(lines: seq<Line>, part: Part, ls: seq<Line>)
    requires forall line :: line in ls <==> StandsUnder(lines, line, part)
    ensures AllLegal(part, ls) <==> forall i | 0 <= i < |lines| && Declares(lines, i, part) :: LegalEntry(part, lines[i])
  {
    hide Declares, LinesOf;
    if AllLegal(part, ls) {
      forall i | 0 <= i < |lines| && Declares(lines, i, part) ensures LegalEntry(part, lines[i]) {
        assert IsBody(lines[i]) ==> lines[i] in ls;
      }
    }
  }

  lemma ConsistentMeans(lines: seq<Line>, part: Part, ls: seq<Line>)
    requires forall line :: line in ls <==> StandsUnder(lines, line, part)
    ensures Consistent(ls)
       <==> forall i, j | 0 <= i < j < |lines| && Declares(lines, i, part) && Declares(lines, j, part) ::
              lines[i].Entry? && lines[j].Entry? && lines[i].path == lines[j].path ==> lines[i].value == lines[j].value
  {
    hide Declares, LinesOf;
    if Consistent(ls) {
      forall i, j | 0 <= i < j < |lines| && Declares(lines, i, part) && Declares(lines, j, part)
        ensures lines[i].Entry? && lines[j].Entry? && lines[i].path == lines[j].path ==> lines[i].value == lines[j].value
      {
        assert lines[i].Entry? ==> lines[i] in ls;
        assert lines[j].Entry? ==> lines[j] in ls;
      }
    } else {
      var a, b :| a in ls && b in ls && a.Entry? && b.Entry? && a.path == b.path && a.value != b.value;
      var i :| 0 <= i < |lines| && lines[i] == a && Declares(lines, i, part);
      var j :| 0 <= j < |lines| && lines[j] == b && Declares(lines, j, part);
      if i < j {
        assert lines[i].path == lines[j].path;
      } else {
        assert j < i && lines[j].path == lines[i].path;
      }
    }
  }

  lemma PartsHold(lines: seq<Line>, part: Part, table: map<string, string>)
    requires forall path, value ::
               path in table && table[path] == value <==> Entry(path, value) in LinesOf(lines, |lines|, part)
    ensures Holds(table, lines, part)
  {
    hide Declares, LinesOf;
    forall path, value ensures Declared(lines, part, path, value) <==> path in table && table[path] == value {
      LinesOfMeans(lines, |lines|, part, Entry(path, value));
    }
  }

  /** Succeeds exactly on well-formed declarations, with the four tables their headings mean. */
  method ParseScope(lines: seq<Line>) returns (r: Guarded<DeclaredScope>)
    ensures r.Pass? <==> WellDeclared(lines)
    ensures r.Pass? ==> Describes(r.value, lines)
  {
    hide Declares, LinesOf, AllLegal, Consistent, LegalEntry, Holds;
    forall part ensures PartLegal(lines, part) <==> AllLegal(part, LinesOf(lines, |lines|, part)) && Consistent(LinesOf(lines, |lines|, part)) {
      PartsMeanDeclarations(lines, part);
    }
    FourParts(lines);
    var sections := CollectSections(lines);
    if sections.GuardFailure? {
      return GuardFailure;
    }
    var allow := Entries(Allowed, sections.value[Allowed]);
    var checkpoint := Entries(Checkpoint, sections.value[Checkpoint]);
    var immutable := Entries(Immutable, sections.value[Immutable]);
    var prohibited := Entries(Denied, sections.value[Denied]);
    if allow.GuardFailure? || checkpoint.GuardFailure? || immutable.GuardFailure? || prohibited.GuardFailure? {
      return GuardFailure;
    }
    r := Pass(DeclaredScope(allow.value, checkpoint.value, immutable.value, prohibited.value));
    forall part ensures Holds(Table(r.value, part), lines, part) {
      PartsHold(lines, part, Table(r.value, part));
    }
  }
}

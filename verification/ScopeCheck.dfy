/** The declared scope against what a pull request actually changes. */
module ScopeCheck {
  import opened Wrappers
  import opened Sequences
  import opened Manifest
  import opened WorkBlock
  import opened Scope

  datatype ChangeStatus = Added | Modified | Removed | Renamed | UnknownStatus

  datatype Change = Change(path: string, status: ChangeStatus)

  /** A row of the product route document: an item and its state. */
  datatype Row = Row(item: string, state: string)

  datatype ScopeEvidence = ScopeEvidence(
    changes: seq<Change>, checkpoint: map<string, string>, immutable: map<string, string>,
    present: set<string>, route: Option<seq<Row>>)

  datatype ScopeEvaluation = ScopeEvaluation(count: nat, governance: seq<string>, consumed: seq<string>)

  const GOVERNANCE_PATHS := {
    "AGENTS.md", "docs/development_protocol.md", "scripts/check_workflow_guards.py", ".github/CODEOWNERS"}

  const GUARD_TESTS := {
    "tests/unit/test_workflow_guard.py", "tests/unit/test_development_workflow_contract.py"}

  const ROUTE_PLAN := "docs/basic_functional_release_plan.md"
  const ROUTE_DOCUMENTS := {"docs/basic_functional_release_plan.md", "docs/product_roadmap.md"}

  predicate IsGovernance(path: string) {
    || path in GOVERNANCE_PATHS
    || ".agents/rules/" <= path || ".agents/skills/" <= path
    || ".github/workflows/" <= path || ".github/ISSUE_TEMPLATE/" <= path
  }

  /** A glob pattern covers everything below its directory. */
  predicate MatchesPath(pattern: string, path: string) {
    if UsesGlob(pattern) then pattern[..|pattern| - 2] <= path else path == pattern
  }

  predicate IsProhibited(scope: DeclaredScope, path: string) {
    exists pattern | pattern in scope.prohibited :: MatchesPath(pattern, path)
  }

  function Paths(changes: seq<Change>): seq<string> {
    Map((c: Change) => c.path, changes)
  }

  // ----- The conditions -----

  /** The declaration itself: an R3 block has an allowlist, disjoint from what it denies. */
  predicate ScopeIsSound(w: WorkBlock, scope: DeclaredScope) {
    && (w.risk.R3? ==> scope.allowlist != map[])
    && forall path | path in scope.allowlist :: !IsProhibited(scope, path) && path !in scope.immutable
  }

  /** Every declared digest was observed with the declared value. */
  predicate DigestsAgree(declared: map<string, string>, observed: map<string, string>) {
    forall path | path in declared :: path in observed && observed[path] == declared[path]
  }

  /** One change stays inside the scope, and its status fits how the path was declared. */
  predicate ChangeFits(w: WorkBlock, scope: DeclaredScope, c: Change) {
    && !c.status.UnknownStatus?
    && !IsProhibited(scope, c.path) && c.path !in scope.immutable
    && (w.risk.R3? ==> c.path in scope.allowlist)
    && (c.path in scope.allowlist ==>
          if scope.allowlist[c.path] == NEW_FILE then c.status.Added? else c.status.Modified? || c.status.Removed?)
  }

  /** Which writer may touch governance paths, and which must touch nothing else. */
  predicate WriterFits(w: WorkBlock, paths: seq<string>, standing: bool) {
    && ((exists i | 0 <= i < |paths| :: IsGovernance(paths[i])) ==> w.writer.Governance? && (w.policy.Auto? ==> standing))
    && (w.writer.Governance? ==>
          && w.risk.R3? && w.profile.Critical? && (w.policy.Human? || standing) && w.route.NoEffect?
          && forall i | 0 <= i < |paths| :: IsGovernance(paths[i]) || paths[i] in GUARD_TESTS)
    && (w.route.NoEffect? ==> forall i | 0 <= i < |paths| :: paths[i] !in ROUTE_DOCUMENTS)
  }

  ghost predicate InScope(w: WorkBlock, scope: DeclaredScope, evidence: ScopeEvidence, standing: bool) {
    && ScopeIsSound(w, scope)
    && DigestsAgree(scope.checkpoint, evidence.checkpoint) && DigestsAgree(scope.immutable, evidence.immutable)
    && Distinct(Paths(evidence.changes))
    && (forall i | 0 <= i < |evidence.changes| :: ChangeFits(w, scope, evidence.changes[i]))
    && WriterFits(w, Paths(evidence.changes), standing)
  }

  function Consumed(scope: DeclaredScope, changes: seq<Change>): seq<string> {
    Filter(path => path in scope.allowlist, Paths(changes))
  }

  function GovernancePaths(changes: seq<Change>): seq<string> {
    Filter(IsGovernance, Paths(changes))
  }

  lemma GovernanceIsEmpty(changes: seq<Change>)
    ensures GovernancePaths(changes) == [] <==> forall i | 0 <= i < |changes| :: !IsGovernance(Paths(changes)[i])
  {
    hide IsGovernance;
    if GovernancePaths(changes) != [] {
      assert GovernancePaths(changes)[0] in GovernancePaths(changes);
    }
    forall i | 0 <= i < |changes| && IsGovernance(Paths(changes)[i]) ensures Paths(changes)[i] in GovernancePaths(changes) {
    }
  }

  lemma ConsumedGrows(scope: DeclaredScope, changes: seq<Change>, i: nat)
    requires i < |changes|
    ensures Consumed(scope, changes[..i + 1])
         == Consumed(scope, changes[..i]) + if changes[i].path in scope.allowlist then [changes[i].path] else []
  {
    var path := changes[i].path;
    assert Paths(changes[..i + 1]) == Paths(changes[..i]) + [path];
    FilterAppend(path => path in scope.allowlist, Paths(changes[..i]), [path]);
    if path in scope.allowlist {
      FilterAll(path => path in scope.allowlist, [path]);
    } else {
      FilterNone(path => path in scope.allowlist, [path]);
    }
  }

  /** Walks the changed paths once; the accepted ones are consumed in order. */
  method ConsumeChanges(w: WorkBlock, scope: DeclaredScope, changes: seq<Change>) returns (r: Guarded<seq<string>>)
    ensures r.Pass? <==> forall i | 0 <= i < |changes| :: ChangeFits(w, scope, changes[i])
    ensures r.Pass? ==> r.value == Consumed(scope, changes)
  {
    hide IsProhibited, Consumed;
    var consumed: seq<string> := [];
    assert consumed == Consumed(scope, changes[..0]) by {
      NothingConsumed(scope);
    }
    for i := 0 to |changes|
      invariant forall k | 0 <= k < i :: ChangeFits(w, scope, changes[k])
      invariant consumed == Consumed(scope, changes[..i])
    {
      var c := changes[i];
      ConsumedGrows(scope, changes, i);
      if c.status.UnknownStatus? || IsProhibited(scope, c.path) || c.path in scope.immutable {
        return GuardFailure;
      }
      if w.risk.R3? && c.path !in scope.allowlist {
        return GuardFailure;
      }
      if c.path in scope.allowlist {
        if scope.allowlist[c.path] == NEW_FILE && !c.status.Added? {
          return GuardFailure;
        }
        if scope.allowlist[c.path] != NEW_FILE && (c.status.Added? || c.status.Renamed?) {
          return GuardFailure;
        }
        consumed := consumed + [c.path];
      }
    }
    assert changes[..|changes|] == changes;
    r := Pass(consumed);
  }

  lemma NothingConsumed(scope: DeclaredScope)
    ensures Consumed(scope, []) == []
  {
  }

  /** Accepts exactly the changes that are in scope. */
  method ValidateScope(w: WorkBlock, scope: DeclaredScope, evidence: ScopeEvidence, standing: bool)
    returns (r: Guarded<ScopeEvaluation>)
    ensures r.Pass? <==> InScope(w, scope, evidence, standing)
    ensures r.Pass? ==> r.value == Evaluated(scope, evidence)
  {
    hide IsGovernance, ChangeFits, Consumed, IsProhibited;
    var changes := evidence.changes;
    var paths := Paths(changes);
    if !ScopeIsSound(w, scope) || !DigestsAgree(scope.checkpoint, evidence.checkpoint)
       || !DigestsAgree(scope.immutable, evidence.immutable)
    {
      return GuardFailure;
    }
    DistinctExactly(paths);
    if |Elements(paths)| != |paths| {
      return GuardFailure;
    }
    GovernanceIsEmpty(changes);
    var governance := GovernancePaths(changes);
    if governance != [] && w.policy.Auto? && !standing {
      return GuardFailure;
    }
    var consumed := ConsumeChanges(w, scope, changes);
    if consumed.GuardFailure? {
      return GuardFailure;
    }
    if (w.writer.Product? || w.writer.Ui?) && governance != [] {
      return GuardFailure;
    }
    if w.writer.Governance? {
      if !w.risk.R3? || !w.profile.Critical? || (!w.policy.Human? && !standing) || !w.route.NoEffect? {
        return GuardFailure;
      }
      for i := 0 to |paths|
        invariant forall k | 0 <= k < i :: IsGovernance(paths[k]) || paths[k] in GUARD_TESTS
      {
        if !IsGovernance(paths[i]) && paths[i] !in GUARD_TESTS {
          return GuardFailure;
        }
      }
    }
    if w.route.NoEffect? && exists i | 0 <= i < |paths| :: paths[i] in ROUTE_DOCUMENTS {
      return GuardFailure;
    }
    r := Pass(ScopeEvaluation(|changes|, governance, consumed.value));
  }

  function Evaluated(scope: DeclaredScope, evidence: ScopeEvidence): ScopeEvaluation {
    ScopeEvaluation(|evidence.changes|, GovernancePaths(evidence.changes), Consumed(scope, evidence.changes))
  }

  // ----- What acceptance means -----

  /** Under R3 the consumed allowlist is the list of changed paths itself, in order and without repeats. */
  lemma StrictScopeConsumesAll(w: WorkBlock, scope: DeclaredScope, evidence: ScopeEvidence, standing: bool)
    requires InScope(w, scope, evidence, standing) && w.risk.R3?
    ensures Evaluated(scope, evidence).consumed == Paths(evidence.changes) && Distinct(Paths(evidence.changes))
  {
    hide IsProhibited, IsGovernance;
    var paths := Paths(evidence.changes);
    forall path | path in paths ensures path in scope.allowlist {
      var i :| 0 <= i < |paths| && paths[i] == path;
      assert ChangeFits(w, scope, evidence.changes[i]);
    }
    FilterAll(path => path in scope.allowlist, paths);
  }

  /** An AUTO block that touches a governance path is accepted only with standing evidence. */
  lemma AutoGovernanceNeedsStanding(w: WorkBlock, scope: DeclaredScope, evidence: ScopeEvidence, standing: bool)
    requires InScope(w, scope, evidence, standing) && w.policy.Auto?
    requires Evaluated(scope, evidence).governance != []
    ensures standing && w.writer.Governance?
  {
    hide IsProhibited, IsGovernance, ChangeFits;
    GovernanceIsEmpty(evidence.changes);
  }

  /** Every change a product or UI writer gets accepted stays off the governance paths. */
  lemma ProductStaysOffGovernance(w: WorkBlock, scope: DeclaredScope, evidence: ScopeEvidence, standing: bool)
    requires InScope(w, scope, evidence, standing) && !w.writer.Governance?
    ensures Evaluated(scope, evidence).governance == []
    ensures forall c | c in evidence.changes :: !IsGovernance(c.path) && !IsProhibited(scope, c.path)
  {
    hide IsProhibited, IsGovernance;
    GovernanceIsEmpty(evidence.changes);
    forall c | c in evidence.changes ensures !IsGovernance(c.path) && !IsProhibited(scope, c.path) {
      var i :| 0 <= i < |evidence.changes| && evidence.changes[i] == c;
      assert Paths(evidence.changes)[i] == c.path && ChangeFits(w, scope, c);
    }
  }
}

/** Resolution of the marker comments of a pull request, and the plan that reconciles them. */
module Markers {
  import opened Wrappers
  import opened Sequences
  import opened MarkerText

  datatype Phase = BuildPhase | AuditPhase | FinalizePhase

  /** The marker a role stands on, its redundant copies, and evidence for an earlier head. */
  datatype Resolution = Resolution(
    marker: Option<MarkerRecord>, duplicates: seq<int>, stale: seq<MarkerRecord>)

  const NO_MARKER := Resolution(None, [], [])

  datatype Mutation =
    | Supersede(role: Role, commentId: int)
    | RetargetBuild(commentId: int)
    | ArchiveAudit(commentId: int)

  /** What duplicate markers must share. The manifest digest is not part of it. */
  datatype Signature = Signature(
    kind: MarkerKind, block: string, sha: string, status: Status, reviewer: Option<string>, payload: string)

  function SignatureOf(m: MarkerRecord): Signature {
    Signature(m.kind, m.block, m.sha, m.status, m.reviewer, m.payload)
  }

  predicate Equivalent(ms: seq<MarkerRecord>) {
    forall i | 0 <= i < |ms| :: SignatureOf(ms[i]) == SignatureOf(ms[0])
  }

  /** The record with the lowest comment id, the earliest one on a tie. */
  function Canonical(ms: seq<MarkerRecord>): (m: MarkerRecord)
    requires ms != []
    ensures m in ms
    ensures forall x | x in ms :: m.commentId <= x.commentId
  {
    if |ms| == 1 then ms[0]
    else
      var rest := Canonical(ms[1..]);
      assert ms == [ms[0]] + ms[1..];
      if ms[0].commentId <= rest.commentId then ms[0] else rest
  }

  function Duplicates(ms: seq<MarkerRecord>, canonical: int): seq<int> {
    Map((m: MarkerRecord) => m.commentId, Filter((m: MarkerRecord) => m.commentId != canonical, ms))
  }

  function Active(markers: seq<MarkerRecord>, role: Role): seq<MarkerRecord> {
    Filter((m: MarkerRecord) => m.role == Some(role), markers)
  }

  function AtHead(ms: seq<MarkerRecord>, head: string): seq<MarkerRecord> {
    Filter((m: MarkerRecord) => m.sha == head, ms)
  }

  function Behind(ms: seq<MarkerRecord>, head: string): seq<MarkerRecord> {
    Filter((m: MarkerRecord) => m.sha != head, ms)
  }

  function ResolveCurrent(current: seq<MarkerRecord>): Guarded<Resolution> {
    if current == [] then Pass(NO_MARKER)
    else
      var _ :- Need(Equivalent(current));
      var canonical := Canonical(current);
      Pass(Resolution(Some(canonical), Duplicates(current, canonical.commentId), []))
  }

  function ResolveMarkers(markers: seq<MarkerRecord>, role: Role, block: string, head: string, phase: Phase)
    : Guarded<Resolution>
  {
    var active := Active(markers, role);
    var _ :- Need(forall i | 0 <= i < |active| :: active[i].block == block);
    var current, stale := AtHead(active, head), Behind(active, head);
    if stale == [] then ResolveCurrent(current)
    else if role.AuditRole? then
      var _ :- Need(phase != FinalizePhase && current == [] && Equivalent(stale));
      Pass(Resolution(None, Duplicates(stale, Canonical(stale).commentId), stale))
    else
      var _ :- Need(phase == BuildPhase && current == [] && |stale| == 1 && stale[0].status == Pending);
      Pass(Resolution(None, [], stale))
  }

  function Superseding(role: Role, ids: seq<int>): seq<Mutation> {
    Map(id => Supersede(role, id), ids)
  }

  function StalePlan(role: Role, stale: seq<MarkerRecord>): seq<Mutation> {
    if stale == [] then []
    else if role.BuildRole? then [RetargetBuild(Canonical(stale).commentId)]
    else [ArchiveAudit(Canonical(stale).commentId)]
  }

  function RolePlan(role: Role, resolution: Resolution): seq<Mutation> {
    Superseding(role, resolution.duplicates) + StalePlan(role, resolution.stale)
  }

  function PlanOf(build: Resolution, audit: Resolution): seq<Mutation> {
    RolePlan(BuildRole, build) + RolePlan(AuditRole, audit)
  }

  /** Extends one list role by role. */
  method MutationPlan(build: Resolution, audit: Resolution) returns (plan: seq<Mutation>)
    ensures plan == PlanOf(build, audit)
  {
    hide Superseding, StalePlan, Canonical;
    plan := [];
    var roles := [(BuildRole, build), (AuditRole, audit)];
    var r := 0;
    while r < 2
      invariant 0 <= r <= 2
      invariant plan == if r == 0 then [] else if r == 1 then RolePlan(BuildRole, build) else PlanOf(build, audit)
    {
      var (role, resolution) := roles[r];
      ghost var before := plan;
      var i := 0;
      SupersedingLength(role, resolution.duplicates);
      while i < |resolution.duplicates|
        invariant 0 <= i <= |resolution.duplicates|
        invariant |Superseding(role, resolution.duplicates)| == |resolution.duplicates|
        invariant plan == before + Superseding(role, resolution.duplicates)[..i]
      {
        SupersedingGrows(role, resolution.duplicates, i);
        plan := plan + [Supersede(role, resolution.duplicates[i])];
        i := i + 1;
      }
      SupersedingLength(role, resolution.duplicates);
      ghost var superseded := plan;
      assert superseded == before + Superseding(role, resolution.duplicates);
      if resolution.stale != [] {
        var canonical := Canonical(resolution.stale);
        plan := plan + [if role.BuildRole? then RetargetBuild(canonical.commentId) else ArchiveAudit(canonical.commentId)];
      }
      StalePlanIs(role, resolution.stale);
      assert plan == before + RolePlan(role, resolution);
      r := r + 1;
    }
  }

  lemma SupersedingLength(role: Role, ids: seq<int>)
    ensures |Superseding(role, ids)| == |ids| && Superseding(role, ids)[..|ids|] == Superseding(role, ids)
  {
  }

  lemma SupersedingGrows(role: Role, ids: seq<int>, i: nat)
    requires i < |ids|
    ensures |Superseding(role, ids)| == |ids|
    ensures Superseding(role, ids)[..i + 1] == Superseding(role, ids)[..i] + [Supersede(role, ids[i])]
  {
  }

  lemma StalePlanIs(role: Role, stale: seq<MarkerRecord>)
    ensures stale == [] ==> StalePlan(role, stale) == []
    ensures stale != [] ==>
              StalePlan(role, stale) == [if role.BuildRole? then RetargetBuild(Canonical(stale).commentId)
                                         else ArchiveAudit(Canonical(stale).commentId)]
  {
  }

  // ----- What resolution means -----

  /** `m` is one of the records that speak for the role. */
  ghost predicate IsOf(markers: seq<MarkerRecord>, role: Role, m: MarkerRecord) {
    m in markers && m.role == Some(role)
  }

  /** Two copies of one statement: everything but the comment they stand in, and the manifest digest. */
  predicate SaySame(a: MarkerRecord, b: MarkerRecord) {
    && a.kind == b.kind && a.block == b.block && a.sha == b.sha
    && a.status == b.status && a.reviewer == b.reviewer && a.payload == b.payload
  }

  ghost predicate AllSaySame(markers: seq<MarkerRecord>, role: Role) {
    forall a, b | IsOf(markers, role, a) && IsOf(markers, role, b) :: SaySame(a, b)
  }

  /** The records of a role can be resolved: all at the head, or all stale in a way the phase tolerates. */
  ghost predicate Resolvable(markers: seq<MarkerRecord>, role: Role, block: string, head: string, phase: Phase) {
    && (forall m | IsOf(markers, role, m) :: m.block == block)
    && if forall m | IsOf(markers, role, m) :: m.sha == head then AllSaySame(markers, role)
       else
         && (forall m | IsOf(markers, role, m) :: m.sha != head)
         && match role
            case AuditRole => !phase.FinalizePhase? && AllSaySame(markers, role)
            case BuildRole =>
              phase.BuildPhase? && exists i :: OnlyOne(markers, role, i) && markers[i].status.Pending?
  }

  /** The record at `i` is the only one of the role. */
  ghost predicate OnlyOne(markers: seq<MarkerRecord>, role: Role, i: int) {
    && 0 <= i < |markers| && markers[i].role == Some(role)
    && forall j | 0 <= j < |markers| && markers[j].role == Some(role) :: j == i
  }

  /** The record at `i` has the lowest comment id of the role, and is the first of that id. */
  ghost predicate LowestAt(markers: seq<MarkerRecord>, role: Role, i: int) {
    && 0 <= i < |markers| && markers[i].role == Some(role)
    && (forall j | 0 <= j < |markers| && markers[j].role == Some(role) :: markers[i].commentId <= markers[j].commentId)
    && forall j | 0 <= j < i && markers[j].role == Some(role) :: markers[i].commentId < markers[j].commentId
  }

  ghost predicate IsLowest(markers: seq<MarkerRecord>, role: Role, m: MarkerRecord) {
    exists i :: LowestAt(markers, role, i) && markers[i] == m
  }

  /**
   * What a resolution holds: at the head, the marker with the lowest id, and the ids of the others as
   * duplicates; behind it, no marker and the stale records, with the ids of the copies.
   */
  ghost predicate Resolves(markers: seq<MarkerRecord>, role: Role, head: string, r: Resolution) {
    && (forall m :: m in r.stale <==> IsOf(markers, role, m) && m.sha != head)
    && (r.marker.None? <==> forall m | IsOf(markers, role, m) :: m.sha != head)
    && (r.marker.Some? ==> IsLowest(markers, role, r.marker.value))
    && forall id :: id in r.duplicates <==>
         && (exists m :: IsOf(markers, role, m) && m.commentId == id)
         && !exists m :: IsLowest(markers, role, m) && m.commentId == id
  }

  lemma ActiveIs(markers: seq<MarkerRecord>, role: Role, m: MarkerRecord)
    ensures m in Active(markers, role) <==> IsOf(markers, role, m)
  {
  }

  lemma EquivalentIs(ms: seq<MarkerRecord>)
    ensures Equivalent(ms) <==> forall a, b | a in ms && b in ms :: SaySame(a, b)
  {
    if Equivalent(ms) {
      forall a, b | a in ms && b in ms ensures SaySame(a, b) {
        var i :| 0 <= i < |ms| && ms[i] == a;
        var j :| 0 <= j < |ms| && ms[j] == b;
        assert SignatureOf(ms[i]) == SignatureOf(ms[0]) == SignatureOf(ms[j]);
      }
    } else {
      var i :| 0 <= i < |ms| && SignatureOf(ms[i]) != SignatureOf(ms[0]);
      assert ms[i] in ms && ms[0] in ms && !SaySame(ms[i], ms[0]);
    }
  }

  lemma DuplicatesAre(ms: seq<MarkerRecord>, canonical: int, id: int)
    ensures id in Duplicates(ms, canonical) <==> id != canonical && exists m :: m in ms && m.commentId == id
  {
    var others := Filter((m: MarkerRecord) => m.commentId != canonical, ms);
    if id in Duplicates(ms, canonical) {
      var i :| 0 <= i < |others| && others[i].commentId == id;
      assert others[i] in others;
    }
    if id != canonical && exists m :: m in ms && m.commentId == id {
      var m :| m in ms && m.commentId == id;
      assert m in others;
      var i :| 0 <= i < |others| && others[i] == m;
      assert Duplicates(ms, canonical)[i] == id;
    }
  }

  lemma NoneLeft(keep: MarkerRecord -> bool, ms: seq<MarkerRecord>)
    ensures Filter(keep, ms) == [] <==> forall m | m in ms :: !keep(m)
  {
    if Filter(keep, ms) != [] {
      assert Filter(keep, ms)[0] in Filter(keep, ms);
    } else {
      FilterIsEmpty(keep, ms);
    }
  }

  lemma FilterIsEmpty(keep: MarkerRecord -> bool, ms: seq<MarkerRecord>)
    requires Filter(keep, ms) == []
    ensures forall m | m in ms :: !keep(m)
  {
    forall m | m in ms ensures !keep(m) {
      assert m in Filter(keep, ms) <==> keep(m);
    }
  }

  lemma {:induction false} OneLeft(keep: MarkerRecord -> bool, ms: seq<MarkerRecord>) returns (i: nat)
    requires |Filter(keep, ms)| == 1
    ensures i < |ms| && keep(ms[i]) && forall j | 0 <= j < |ms| && keep(ms[j]) :: j == i
  {
    var rest := ms[1..];
    assert forall j | 0 < j < |ms| :: ms[j] == rest[j - 1];
    if keep(ms[0]) {
      i := 0;
      NoneLeft(keep, rest);
      forall j | 0 < j < |ms| ensures !keep(ms[j]) {
        assert rest[j - 1] in rest;
      }
    } else {
      var k := OneLeft(keep, rest);
      i := k + 1;
    }
  }

  lemma Sides(active: seq<MarkerRecord>, head: string)
    ensures Behind(active, head) == [] <==> forall m | m in active :: m.sha == head
    ensures AtHead(active, head) == [] <==> forall m | m in active :: m.sha != head
    ensures (forall m | m in active :: m.sha == head) ==> AtHead(active, head) == active
    ensures (forall m | m in active :: m.sha != head) ==> Behind(active, head) == active
  {
    NoneLeft((m: MarkerRecord) => m.sha != head, active);
    NoneLeft((m: MarkerRecord) => m.sha == head, active);
    if forall m | m in active :: m.sha == head {
      FilterAll((m: MarkerRecord) => m.sha == head, active);
    }
    if forall m | m in active :: m.sha != head {
      FilterAll((m: MarkerRecord) => m.sha != head, active);
    }
  }

  lemma BlocksAgree(active: seq<MarkerRecord>, block: string)
    ensures (forall i | 0 <= i < |active| :: active[i].block == block) <==> forall m | m in active :: m.block == block
  {
    assert forall i | 0 <= i < |active| :: active[i] in active;
  }

  /**
   * A role is resolved exactly if its records say the same in kind, block, commit, status, reviewer and
   * payload, or a single pending build marker is behind in the build phase; and what is resolved is the
   * record with the lowest id and the ids of its copies.
   */
  lemma ResolutionMeans(markers: seq<MarkerRecord>, role: Role, block: string, head: string, phase: Phase)
    ensures var r := ResolveMarkers(markers, role, block, head, phase);
            && (r.Pass? <==> Resolvable(markers, role, block, head, phase))
            && (r.Pass? ==> Resolves(markers, role, head, r.value))
  {
    var active := Active(markers, role);
    forall m ensures m in active <==> IsOf(markers, role, m) {
      ActiveIs(markers, role, m);
    }
    hide Active, AtHead, Behind, IsOf, Resolvable, Resolves, ResolveMarkers;
    Sides(active, head);
    if forall m | m in active :: m.sha == head {
      HeadMeans(markers, role, block, head, phase);
    } else if forall m | m in active :: m.sha != head {
      BehindMeans(markers, role, block, head, phase);
    } else {
      MixedFails(markers, role, block, head, phase);
    }
  }

  lemma MixedFails(markers: seq<MarkerRecord>, role: Role, block: string, head: string, phase: Phase)
    requires var active := Active(markers, role);
             && (forall m :: m in active <==> IsOf(markers, role, m))
             && (exists m :: m in active && m.sha == head) && (exists m :: m in active && m.sha != head)
    ensures ResolveMarkers(markers, role, block, head, phase).GuardFailure?
    ensures !Resolvable(markers, role, block, head, phase)
  {
    hide Active, AtHead, Behind, Duplicates, Canonical, Equivalent, SaySame, IsOf, OnlyOne;
    Sides(Active(markers, role), head);
  }

  lemma LowestShifts(markers: seq<MarkerRecord>, role: Role, k: int)
    requires markers != [] && LowestAt(markers[1..], role, k)
    ensures markers[0].role != Some(role) || markers[0].commentId > markers[1..][k].commentId ==>
              LowestAt(markers, role, k + 1)
    ensures markers[0].role == Some(role) && markers[0].commentId <= markers[1..][k].commentId ==> LowestAt(markers, role, 0)
  {
    var rest := markers[1..];
    assert forall j | 0 < j < |markers| :: markers[j] == rest[j - 1];
  }

  lemma HeadIsLowest(markers: seq<MarkerRecord>, role: Role)
    requires markers != [] && Active(markers[1..], role) == [] && markers[0].role == Some(role)
    ensures LowestAt(markers, role, 0)
  {
    var rest := markers[1..];
    forall j | 0 < j < |markers| ensures markers[j].role != Some(role) {
      ActiveIs(rest, role, rest[j - 1]);
    }
  }

  lemma ActiveOfRest(markers: seq<MarkerRecord>, role: Role)
    requires markers != []
    ensures var rest := Active(markers[1..], role);
            Active(markers, role) == if markers[0].role == Some(role) then [markers[0]] + rest else rest
  {
  }

  lemma {:induction false} CanonicalIsLowest(markers: seq<MarkerRecord>, role: Role) returns (i: nat)
    requires Active(markers, role) != []
    ensures LowestAt(markers, role, i) && markers[i] == Canonical(Active(markers, role))
  {
    var rest := markers[1..];
    ActiveOfRest(markers, role);
    if Active(rest, role) == [] {
      i := 0;
      HeadIsLowest(markers, role);
    } else {
      var k := CanonicalIsLowest(rest, role);
      hide Active, LowestAt;
      LowestShifts(markers, role, k);
      CanonicalOfRest(markers[0], Active(rest, role));
      i := if markers[0].role == Some(role) && markers[0].commentId <= rest[k].commentId then 0 else k + 1;
    }
  }

  lemma CanonicalOfRest(m: MarkerRecord, rest: seq<MarkerRecord>)
    requires rest != []
    ensures Canonical([m] + rest) == if m.commentId <= Canonical(rest).commentId then m else Canonical(rest)
  {
    assert ([m] + rest)[1..] == rest;
  }

  lemma CopiesAre(active: seq<MarkerRecord>, markers: seq<MarkerRecord>, role: Role)
    requires active == Active(markers, role) && active != [] && forall m :: m in active <==> IsOf(markers, role, m)
    ensures var low := Canonical(active);
            && IsLowest(markers, role, low)
            && (forall first | IsLowest(markers, role, first) :: first.commentId == low.commentId)
            && forall id :: id in Duplicates(active, low.commentId) <==>
                 id != low.commentId && exists m :: IsOf(markers, role, m) && m.commentId == id
  {
    var low := Canonical(active);
    var k := CanonicalIsLowest(markers, role);
    forall first | IsLowest(markers, role, first) ensures first.commentId == low.commentId {
      var i :| LowestAt(markers, role, i) && markers[i] == first;
    }
    hide IsOf, Canonical, Duplicates, Active;
    forall id ensures id in Duplicates(active, low.commentId) <==>
        id != low.commentId && exists m :: IsOf(markers, role, m) && m.commentId == id
    {
      DuplicatesAre(active, low.commentId, id);
    }
  }

  lemma HeadMeans(markers: seq<MarkerRecord>, role: Role, block: string, head: string, phase: Phase)
    requires var active := Active(markers, role);
             && (forall m :: m in active <==> IsOf(markers, role, m))
             && Behind(active, head) == [] && AtHead(active, head) == active
             && forall m | m in active :: m.sha == head
    ensures var r := ResolveMarkers(markers, role, block, head, phase);
            && (r.Pass? <==> Resolvable(markers, role, block, head, phase))
            && (r.Pass? ==> Resolves(markers, role, head, r.value))
  {
    hide Active, AtHead, Behind, Duplicates, Canonical, Equivalent, SaySame, IsOf, OnlyOne;
    var active := Active(markers, role);
    BlocksAgree(active, block);
    EquivalentIs(active);
    if active != [] {
      assert active[0] in active;
      CopiesAre(active, markers, role);
    }
  }

  lemma BehindMeans(markers: seq<MarkerRecord>, role: Role, block: string, head: string, phase: Phase)
    requires var active := Active(markers, role);
             && (forall m :: m in active <==> IsOf(markers, role, m))
             && active != [] && AtHead(active, head) == [] && Behind(active, head) == active
             && forall m | m in active :: m.sha != head
    ensures var r := ResolveMarkers(markers, role, block, head, phase);
            && (r.Pass? <==> Resolvable(markers, role, block, head, phase))
            && (r.Pass? ==> Resolves(markers, role, head, r.value))
  {
    hide Active, AtHead, Behind, Duplicates, Canonical, Equivalent, SaySame, IsOf, OnlyOne;
    var active := Active(markers, role);
    BlocksAgree(active, block);
    EquivalentIs(active);
    CopiesAre(active, markers, role);
    assert active[0] in active;
    if role.BuildRole? {
      OneActive(markers, role);
      OnlyOneIsAll(markers, role);
    }
  }

  lemma OnlyOneIsAll(markers: seq<MarkerRecord>, role: Role)
    ensures forall i, a | OnlyOne(markers, role, i) && IsOf(markers, role, a) :: 0 <= i < |markers| && a == markers[i]
  {
  }

  lemma OneActive(markers: seq<MarkerRecord>, role: Role)
    ensures |Active(markers, role)| == 1 <==> exists i :: OnlyOne(markers, role, i)
    ensures forall i | OnlyOne(markers, role, i) :: Active(markers, role) == [markers[i]]
  {
    forall i | OnlyOne(markers, role, i) ensures Active(markers, role) == [markers[i]] {
      FilterSingle((m: MarkerRecord) => m.role == Some(role), markers, i);
    }
    if |Active(markers, role)| == 1 {
      var i := OneLeft((m: MarkerRecord) => m.role == Some(role), markers);
      assert OnlyOne(markers, role, i);
    }
  }

  lemma ResolvableAgree(
    markers: seq<MarkerRecord>, role: Role, block: string, head: string, phase: Phase, a: MarkerRecord, b: MarkerRecord)
    requires Resolvable(markers, role, block, head, phase) && IsOf(markers, role, a) && IsOf(markers, role, b)
    ensures SaySame(a, b)
  {
    hide SaySame, IsOf, OnlyOne;
    OnlyOneIsAll(markers, role);
    SameSaysSame(a);
  }

  lemma SameSaysSame(m: MarkerRecord)
    ensures SaySame(m, m)
  {
  }

  /** Two records of a role that differ in one of the six fields are never resolved. */
  lemma DifferingRecordsFail(
    markers: seq<MarkerRecord>, role: Role, block: string, head: string, phase: Phase, a: MarkerRecord, b: MarkerRecord)
    requires IsOf(markers, role, a) && IsOf(markers, role, b)
    requires a.kind != b.kind || a.block != b.block || a.sha != b.sha || a.status != b.status
             || a.reviewer != b.reviewer || a.payload != b.payload
    ensures ResolveMarkers(markers, role, block, head, phase).GuardFailure?
  {
    hide ResolveMarkers, Resolvable, Resolves, IsOf;
    ResolutionMeans(markers, role, block, head, phase);
    if Resolvable(markers, role, block, head, phase) {
      ResolvableAgree(markers, role, block, head, phase, a, b);
    }
  }

  // ----- All comments -----

  function AllMarkers(comments: seq<Comment>): Guarded<seq<MarkerRecord>> {
    if comments == [] then Pass([])
    else
      var front :- AllMarkers(comments[..|comments| - 1]);
      var last :- MarkerOf(comments[|comments| - 1]);
      Pass(if last.Some? then front + [last.value] else front)
  }

  method ParseAllMarkers(comments: seq<Comment>) returns (r: Guarded<seq<MarkerRecord>>)
    ensures r == AllMarkers(comments)
  {
    hide MarkerOf;
    var markers: seq<MarkerRecord> := [];
    var i := 0;
    while i < |comments|
      invariant 0 <= i <= |comments|
      invariant AllMarkers(comments[..i]) == Pass(markers)
    {
      var next := comments[..i + 1];
      assert next[..i] == comments[..i] && next[|next| - 1] == comments[i];
      var marker := ParseMarker(comments[i]);
      if marker.GuardFailure? {
        FailureSpreads(comments, i + 1);
        return GuardFailure;
      }
      if marker.value.Some? {
        markers := markers + [marker.value.value];
      }
      assert AllMarkers(next) == Pass(markers);
      i := i + 1;
    }
    assert comments[..i] == comments;
    r := Pass(markers);
  }

  lemma {:induction false} FailureSpreads(comments: seq<Comment>, n: nat)
    requires n <= |comments| && AllMarkers(comments[..n]) == GuardFailure
    ensures AllMarkers(comments) == GuardFailure
    decreases |comments| - n
  {
    if n == |comments| {
      assert comments[..n] == comments;
    } else {
      assert comments[..n + 1][..n] == comments[..n];
      FailureSpreads(comments, n + 1);
    }
  }
}
